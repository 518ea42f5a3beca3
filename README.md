# kiwisnr-rrd: a verified model of the sampler and the spectra log

kiwisnr-rrd samples the waterfall of a KiwiSDR receiver. One run goes like this:

- It derives a band (span, start offset, centre, lower and upper edge) from a zoom factor and an offset in kHz.
- It packs the centre and the span into a binary header as unsigned 32-bit integers; a centre below zero (a large negative offset) ends the run with an error before the receiver is contacted.
- It sends the receiver five configuration commands.
- It gathers a batch of waterfall lines, decoding each byte to dBm.
- If the batch comes up short, it logs a dummy row and exits with status 1.
- Otherwise it reduces the batch column by column to a mean and a peak spectrum. It appends the mean to a flat CSV "spectra log" named by the spectra option and the peak to a second log, `<stem>_peak.<ext>`, and computes the median, the 95th percentile and their difference (the SNR) for a round-robin database.

The spectra log has a `#SPECTRA,<lower>,<upper>,<bins>` header followed by `<timestamp>Z,<v1>,...,<vN>` rows. It is created and appended to under a header guard, and it can be read or clipped to a time window.

The model is split into modules:

- `Text`: decimal rendering and parsing of integers and of tenths, and splitting at a separator.
- `Geometry`: the band and the database file name.
- `Kiwi`: the connection, as a class with a log of messages sent and a queue of inbound events, plus the configuration commands.
- `Collection`: the collection loop, as a method over a `length × bins` array, specified by the recursive function `Gather` over the inbound events.
- `Reduction`: the column-wise maximum and mean, the percentiles, and the SNR.
- `SpectraLog`: the log format and the file operations, as methods on a `FileStore` class whose `files` field maps names to their lines.
- `Sampler`: the whole run. `Run` is the specification function, and `RunSampler` is the method proved against it.

Units:

- Frequencies are held in tenths of a kHz. The edges are multiples of half a kHz, so this is exact.
- Logged levels are integer tenths, which is what `%.1f` shows.
- Timestamps are integer seconds, rendered as `<seconds>Z`.
- Lines of a file are held without their newline. `FileStore.Valid` states that no line contains one.

## Model

| member | source | states |
|---|---|---|
| Geometry.Span | snrtorrd.py:79-83 | span · 2^zoom ≤ 30000 < (span+1) · 2^zoom for a positive zoom, i.e. the truncated quotient; 30000 otherwise |
| Geometry.SpanHalves | snrtorrd.py:80-81 | each further zoom step halves the span, rounding down |
| Geometry.StartOffset | snrtorrd.py:86-91 | 0 when the offset is not positive; otherwise the truncation of (offset+100) · 1024 · 16000 / 30000 |
| Geometry.TruncHalfBounds | snrtorrd.py:93 | half of x truncated toward zero, as Python's `int` does: twice it falls short of x by at most one, toward zero |
| Geometry.BandFor | snrtorrd.py:79-95 | defined exactly when 2^zoom does not overflow (zoom < 1024); upper − lower is the span, lower + upper is twice the centre |
| Geometry.CenterNearMiddle | snrtorrd.py:93 | twice the centre is the span plus twice the offset, less at most one, rounded toward zero |
| Geometry.RrdName | snrtorrd.py:97-98 | the database name begins with the host and ends in `.rrd` |
| Geometry.RrdSuffixFields | snrtorrd.py:97-98 | the `_low_high.rrd` suffix splits at `_` back into the two numerals and the extension |
| Geometry.RrdSuffixInjective | snrtorrd.py:97-98 | distinct pairs of edges give distinct suffixes |
| Geometry.HostSuffixInjective | snrtorrd.py:97-98 | for one host, names built from distinct pairs of edges differ |
| Geometry.RrdNameInjective | snrtorrd.py:97-98 | for one host, equal database names imply equal lower and upper whole-kHz edges |
| Kiwi.KiwiStream.SendMessage | snrtorrd.py:164 | the message is appended to the sent log; the inbound queue is untouched |
| Kiwi.KiwiStream.ReceiveMessage | snrtorrd.py:174-178 | consumes the next event; a failure once nothing is left; nothing is sent |
| Kiwi.AuthMessage | snrtorrd.py:157-159 | the auth prefix followed by the password, or by nothing when it is `NONE` |
| Kiwi.SendCommands | snrtorrd.py:161-164 | the sent log grows by exactly the five commands, in order; nothing is received |
| Kiwi.ZoomMessageRoundTrip | snrtorrd.py:161 | the zoom command reads back as its zoom factor and start offset |
| Kiwi.Commands | snrtorrd.py:157-162 | five messages: the auth message first, then a zoom command that reads back as the zoom factor and start offset |
| Kiwi.CommandsRead | snrtorrd.py:157-162 | five commands: auth (with the password unless `NONE`), zoom/start, maxdb/mindb, wf_speed, wf_comp |
| Collection.TagMakesWaterfall | snrtorrd.py:180 | a message holding `W/F` anywhere, whatever surrounds it, is a waterfall line |
| Collection.MessageBroadcastable | snrtorrd.py:181-189 | a message fits a row exactly when it carries `bins` bytes or one byte after its 16-byte header; one no longer than the header never does |
| Collection.Payload | snrtorrd.py:181 | the message without its first 16 bytes, byte for byte |
| Collection.DecodeByte | snrtorrd.py:189-191 | every decoded value lies in [−268, −13] and equals the byte minus 268 |
| Collection.DecodeMonotone | snrtorrd.py:189-191 | decoding preserves order and distinctness in both directions |
| Collection.DecodeRow | snrtorrd.py:189-191 | a payload of `bins` bytes decodes bin by bin; a one-byte payload fills the row |
| Collection.Gather | snrtorrd.py:172-195 | at most `want` rows, each `bins` long, every value in [−268, −13] |
| Collection.WriteRow | snrtorrd.py:189-191 | row `t` becomes the decoded payload; every other row is unchanged |
| Collection.Collect | snrtorrd.py:169-195 | the loop ends as `Gather` says: a crash on an unbroadcastable line, otherwise `time` rows gathered, rows below `time` hold them, rows from `time` on stay 0, the remaining events stay queued |
| Collection.GatherThrough | snrtorrd.py:172-195 | failure-free events that hold fewer frames than wanted contribute their decoded frames, and gathering continues after them |
| Collection.GatherCompletes | snrtorrd.py:172-195 | exactly `length` frames without a failure give those rows, and the loop stops right after the last one |
| Collection.GatherStopsShort | snrtorrd.py:174-178 | a failed receive or running out of events before `length` frames gives the rows so far |
| Collection.GatherCrashes | snrtorrd.py:189 | a waterfall line whose payload cannot fill a row ends the run |
| Reduction.Column | snrtorrd.py:213-214 | column j of the batch, row by row |
| Reduction.Max | snrtorrd.py:214 | at least every element, and equal to one of them |
| Reduction.Min | snrtorrd.py:213 | at most every element, and equal to one of them |
| Reduction.SumBounds | snrtorrd.py:213 | a sum of n values in [lo, hi] lies in [n·lo, n·hi] |
| Reduction.MeanBetween | snrtorrd.py:213 | the mean lies between the minimum and the maximum |
| Reduction.MaxSpectrum | snrtorrd.py:214 | `bins` values, each the maximum of its column |
| Reduction.AvgSpectrum | snrtorrd.py:213 | `bins` values, each the mean of its column |
| Reduction.ColumnwiseBounds | snrtorrd.py:213-214 | the peak bin is at least every sample and equals one; the mean bin lies between the column minimum and the peak |
| Reduction.SteadyBatch | snrtorrd.py:213-214 | a batch of identical lines has that line as both its peak and its mean |
| Reduction.SortReals | snrtorrd.py:234-235 | a sorted permutation of the spectrum |
| Reduction.Insert | snrtorrd.py:234-235 | inserting into a sorted list keeps it sorted and adds exactly that element |
| Reduction.RankBounds | snrtorrd.py:234-235 | the interpolation rank q·(n−1)/100 lies within the indices |
| Reduction.RankMonotone | snrtorrd.py:234-235 | a higher percentile has a higher rank |
| Reduction.Lerp | snrtorrd.py:234-235 | linear interpolation stays between its end points |
| Reduction.LerpMonotone | snrtorrd.py:234-235 | interpolation grows with its fraction |
| Reduction.PercentileOfSorted | snrtorrd.py:234-235 | a percentile lies between the smallest and the largest value |
| Reduction.Percentile | snrtorrd.py:234-235 | a percentile of any values lies between the smallest and the largest of them |
| Reduction.PercentileBetweenRanks | snrtorrd.py:234-235 | a percentile lies between the two sorted values around its rank |
| Reduction.PercentileMonotone | snrtorrd.py:234-239 | a higher percentile is never smaller |
| Reduction.Median | snrtorrd.py:235 | the median lies between the smallest and the largest level of the spectrum |
| Reduction.P95 | snrtorrd.py:234 | the 95th percentile is at most the largest level and never below the median |
| Reduction.Snr | snrtorrd.py:234-239 | the SNR is the 95th percentile minus the median, and never negative |
| Reduction.FlatPercentile | snrtorrd.py:234-235 | every percentile of a flat spectrum is its level |
| Reduction.FlatSpectrum | snrtorrd.py:234-239 | a flat spectrum has an SNR of zero |
| Reduction.RoundTenths | spectra_helpers.py:124 | `%.1f` as tenths: within half a tenth of the value |
| Text.NatRoundTrip | spectra_helpers.py:124 | a rendered natural number parses back to itself |
| Text.IntRoundTrip | snrtorrd.py:161 | a rendered integer parses back to itself |
| Text.IntToStringInjective | snrtorrd.py:97 | distinct integers render to distinct numerals |
| Text.TenthsRoundTrip | spectra_helpers.py:13 | a value rendered with one decimal parses back to the same tenths |
| Text.SplitWithoutSep | spectra_helpers.py:23 | a text without the separator splits into itself alone |
| Text.SplitAtFirst | spectra_helpers.py:23 | splitting at the first separator gives the text before it, then the split of the rest |
| Text.SplitFieldCount | snrtorrd.py:224 | a text splits into more than one field exactly when it contains the separator |
| SpectraLog.ParseHeader | spectra_helpers.py:18-35 | Some exactly when the first line, less its first character, splits at commas into `SPECTRA` and at least three readable numbers; the header then holds those three numbers |
| SpectraLog.HeaderLine | spectra_helpers.py:13 | the header written is one line of text beginning `#SPECTRA,` |
| SpectraLog.HeaderRoundTrip | spectra_helpers.py:10-35 | a file created for a band reads back that band, whatever follows the header |
| SpectraLog.CreateNewFile | spectra_helpers.py:10-15 | the file is replaced by the single header line; no other file changes |
| SpectraLog.FormatRow | spectra_helpers.py:122-125 | the data line built value by value is the row's line, and holds no newline |
| SpectraLog.RowLine | spectra_helpers.py:122-125 | the data line written for a row is one line of text |
| SpectraLog.RowRoundTrip | spectra_helpers.py:122-125 | a data line reads back as its timestamp and exactly its values |
| SpectraLog.AppendToFile | spectra_helpers.py:104-129 | the status is the header guard; the files become `AppendedFiles` of the old ones |
| SpectraLog.AppendGuard | spectra_helpers.py:107-119 | a missing file is created; an existing one is appended to exactly when its header reads back as this band, and refused as unreadable exactly when its header cannot be read |
| SpectraLog.AppendedFiles | spectra_helpers.py:104-129 | afterwards the file exists; a missing one holds the header and the line; an existing one is unchanged or gains exactly the line at its end; every other file is unchanged |
| SpectraLog.AppendEffect | spectra_helpers.py:104-129 | nothing changes exactly when the guard refuses; otherwise the file gains one line at its end, earlier lines and other files stay, and the new line reads back as the row given |
| SpectraLog.BandGuard | spectra_helpers.py:112-116 | a file created for a band accepts an append for exactly that band and refuses any other |
| SpectraLog.AppendDummyEntry | spectra_helpers.py:132-136 | an append of `bins` values of −999.0 under the same guard |
| SpectraLog.DummyRowReadsBack | spectra_helpers.py:132-136 | the dummy row reads back as `bins` values, each −999.0 |
| SpectraLog.ReadSpectraFile | spectra_helpers.py:38-67 | the result is `ReadFile` of the files; times and spectra are equally long |
| SpectraLog.ReadFile | spectra_helpers.py:38-67 | a missing file raises; None exactly when the header cannot be read; otherwise the header's band and as many times as spectra, one per data line without a limit |
| SpectraLog.ReadRows | spectra_helpers.py:53-65 | at most one row per line; a line whose timestamp cannot be read fails the whole read |
| SpectraLog.ReadRowsUnlimited | spectra_helpers.py:53-65 | without a limit, the read succeeds exactly when every line parses, and row i is the parse of line i |
| SpectraLog.ReadRowsInWindow | spectra_helpers.py:57-60 | with a limit, every row read lies in the window |
| SpectraLog.ReadRowsRoundTrip | spectra_helpers.py:53-65 | lines written for rows read back as those rows, in order: all of them without a limit, those in the window with one |
| SpectraLog.ClipSpectraFile | spectra_helpers.py:70-101 | a missing or unreadable file is left as it was; otherwise the header is kept and then the data lines `ClipLines` keeps |
| SpectraLog.ClipLines | spectra_helpers.py:86-94 | fails exactly when some timestamp cannot be read; otherwise keeps at most every line |
| SpectraLog.ClipKeepsExactly | spectra_helpers.py:86-94 | a line is kept exactly when its timestamp lies in the window |
| SpectraLog.ClipIdempotent | spectra_helpers.py:70-101 | clipping again with the same time and limit keeps everything |
| SpectraLog.ClipRowsRoundTrip | spectra_helpers.py:86-94 | clipping lines written for rows keeps, in order, the lines of the rows in the window |
| Sampler.ExitStatus | snrtorrd.py:204 | the exit status is 0 exactly when the run completes |
| Sampler.PeakFileName | snrtorrd.py:224 | a peak file name exists exactly when the spectra name has a dot |
| Sampler.PeakFileNameFields | snrtorrd.py:224 | `a.csv` gives `a_peak.csv`; anything after a second dot is dropped |
| Sampler.AvgTenths | snrtorrd.py:221 | each logged mean level is within half a tenth of the mean |
| Sampler.PeakTenths | snrtorrd.py:225 | each logged peak level is exactly the peak, in tenths |
| Sampler.Matrix | snrtorrd.py:169 | the array's contents, row by row |
| Sampler.OffsetPacks | snrtorrd.py:93-129 | every zoom factor with a non-negative offset below a million kHz gives a centre and span that pack as unsigned 32-bit integers |
| Sampler.NegativeCentre | snrtorrd.py:93-129 | zoom 0 with offset −20000 kHz gives a centre of −5000 kHz, which does not pack |
| Sampler.HeaderOverflowRun | snrtorrd.py:127-129 | a centre or span that does not pack ends the run with exit status 1, and no spectra log changes |
| Sampler.Results | snrtorrd.py:213-239 | a full batch completes with median ≤ p95 and SNR = p95 − median |
| Sampler.Run | snrtorrd.py:79-239 | with spectra `none` no spectra log changes; no spectra log disappears; every file other than the spectra log and its peak file is unchanged |
| Sampler.RunSampler | snrtorrd.py:79-239 | the outcome and the new files are those of `Run`; the five commands are sent exactly when the band exists and its header packs |
| Sampler.ShortBatchRun | snrtorrd.py:197-204 | with a header that packs, a batch cut short exits with 1; the files change by exactly the dummy append under the header guard: no other file is created or changed, the log keeps its earlier lines, and it ends with the dummy row when the guard allows |
| Sampler.CompletedRun | snrtorrd.py:234-239 | a completed run had a valid zoom, a header that packs and a positive length, exits 0, and has median ≤ p95 and SNR = p95 − median |
| Sampler.FullBatchRun | snrtorrd.py:213-239 | with a header that packs, a full batch of well-formed lines completes with the values reduced from those lines, unless the spectra name has no dot; the files change by exactly the mean row appended to the spectra log and then the peak row appended to `<stem>_peak.<ext>`, each under its header guard; without a dot only the mean row is appended before the run aborts |

## Left out

- Sockets, the WebSocket handshake, the close of the connection and exit status 110 on a failed connect: foreign network code. The receive side is a finite queue of events. Once the queue is exhausted, every receive fails, as a receive on a silent socket times out.
- Text frames, and a receive that returns nothing rather than raising: every inbound message is bytes.
- `rrdtool` create, update, last and first, and the update string: calls into a database that is not part of this model. `Run` ends with the three values the update would carry.
- The bytes of the packed `struct` header: never sent or written. Only its range check is modelled (`Sampler.HeaderPacks`: the centre and the span as unsigned 32-bit integers); the 26-byte time field accepts any text.
- The log10 power sum and its printout: transcendental floating point.
- The verbose switch, the binary waterfall list, option parsing, plotting, `rrdtograph.py` and `kiwi_spectrum_plot.py`: not part of this model.
- Geometry.StartOffset: computes the start offset with exact integer division. The source divides in floating point and then formats with `%d`, so the two may differ by one at a float rounding edge.
- Reduction.RoundTenths: rounds an exact tie up. `%.1f` formats the binary double nearest the value, so a tie may go either way; binary floating point is not modelled.
- Sampler.AvgTenths: rounds ties up, through Reduction.RoundTenths. `%.1f` rounds the binary double, so an exact tie may go either way.
- Reduction.Percentile: uses numpy's default linear interpolation over exact reals, not doubles.
- SpectraLog.ParseHeader, SpectraLog.ReadRows and SpectraLog.ParseRow: read only the canonical forms the writer produces: an optional minus sign, digits, one decimal, and `<seconds>Z` timestamps. Python's `float` and `dateutil` also accept whitespace, exponents and other date forms.
- SpectraLog.ReadFile: returns the spectra for rows of any lengths. The source turns them into a numpy array, and current numpy raises on rows of unequal length.
- SpectraLog.ReadSpectraFile: follows `ReadFile`, so it also returns rows of unequal length instead of raising.
- SpectraLog.CreateNewFile: never fails to open the file. In the source, `open` can raise for a missing directory, a missing permission or a directory of that name; the file store is a map of names to lines, with no directories or permissions.
- SpectraLog.AppendToFile: never fails to open the file, for the same reason.
- SpectraLog.ClipSpectraFile: never fails to open the file, for the same reason.
- Timestamps are integer seconds, not ISO-8601 dates. The clock is a parameter `now`. `Run` uses one `now` for both appends of a run.
- Collection.WriteRow: writes the decoded row in one pass. The source does it in three whole-row numpy steps, which give the same values.
- A payload whose length is neither `bins` nor 1 cannot be broadcast into a row. The source then raises and the script dies with no dummy entry. The model follows this code behaviour (`Crashed`), not a truncation.
- A short batch exits without closing the connection, as the source does.
- A zero `length` reaches the column-wise maximum over no rows, which raises. A negative one fails at the array allocation. Both end the run as `Aborted` with the files unchanged.
