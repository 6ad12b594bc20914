/**
 * The MP4 to MP3 converter (audio_converter.py): list the folder's `.mp4`
 * and `.MP4` entries, run ffmpeg once per file, sequentially or through a
 * worker pool, count successes and failures, and exit with 1 when any
 * conversion failed.
 *
 * ffmpeg itself is a parameter: a function from the argument vector to what
 * the process came to.
 */
module AudioConverter {
  import opened Wrappers
  import opened Text
  import Paths
  import Argv
  import Seqs

  /** How much of ffmpeg's stderr a failure message keeps. */
  const MaxErrorLength: nat := 100

  /**
   * How running ffmpeg ends. With `check=True` a non-zero exit status is a
   * `CalledProcessError` carrying the captured stderr; anything else raised
   * (a missing executable, a permission error) is another exception.
   */
  datatype FfmpegRun = Exited(code: int, stderr: string) | Raised(error: string)

  type Ffmpeg = seq<string> -> FfmpegRun

  /** The parameters every conversion of one batch shares. */
  datatype Settings = Settings(inputFolder: string, outputFolder: string, bitrate: string, sampleRate: int)

  /** The `(success, file name, message)` tuple `convert_mp4_to_mp3` returns. */
  datatype Conversion = Conversion(success: bool, fileName: string, message: string)

  /** What `convert_mp4_to_mp3` does for one file: return a tuple, or let an exception through. */
  type Report = Result<Conversion, string>

  datatype BatchStats = BatchStats(total: nat, success: nat, failed: nat)

  /** How `convert_batch` ends: with its stats, through `sys.exit`, or by an uncaught exception. */
  datatype BatchEnd = Returned(stats: BatchStats) | SysExit(code: int) | Uncaught(error: string)

  // ---------------------------------------------------------------------------
  // Enumeration

  /**
   * `glob("*.mp4") + glob("*.MP4")`: every entry ending in `.mp4` or `.MP4`,
   * as often as the listing holds it, the `.mp4` ones first; other casings
   * are not picked up.
   */
  function GetMp4Files(listing: seq<string>): (r: seq<string>)
    ensures forall x :: multiset(r)[x] == if Paths.IsMp4Name(x) then multiset(listing)[x] else 0
    ensures forall i, j :: 0 <= i < j < |r| && EndsWith(r[j], ".mp4") ==> EndsWith(r[i], ".mp4")
    ensures r == Paths.Glob(listing, ".mp4") + Paths.Glob(listing, ".MP4")
  {
    var lower := Paths.Glob(listing, ".mp4");
    var upper := Paths.Glob(listing, ".MP4");
    Mp4Union(listing, lower, upper);
    lower + upper
  }

  lemma Mp4Union(listing: seq<string>, lower: seq<string>, upper: seq<string>)
    requires lower == Paths.Glob(listing, ".mp4") && upper == Paths.Glob(listing, ".MP4")
    ensures forall x :: multiset(lower + upper)[x] == if Paths.IsMp4Name(x) then multiset(listing)[x] else 0
    ensures forall i, j :: 0 <= i < j < |lower + upper| && EndsWith((lower + upper)[j], ".mp4") ==>
      EndsWith((lower + upper)[i], ".mp4")
  {
    forall x ensures multiset(lower + upper)[x] == if Paths.IsMp4Name(x) then multiset(listing)[x] else 0 {
      assert multiset(lower + upper)[x] == multiset(lower)[x] + multiset(upper)[x];
    }
  }

  // ---------------------------------------------------------------------------
  // One conversion

  /** The output file's name: the input's stem with `.mp3` after it. */
  function OutputName(name: string): string {
    Paths.Stem(name) + ".mp3"
  }

  /** The output file keeps the input's stem and has the suffix `.mp3`. */
  lemma OutputNameReplacesSuffix(name: string)
    requires name != []
    ensures Paths.Stem(OutputName(name)) == Paths.Stem(name)
    ensures Paths.Suffix(OutputName(name)) == ".mp3"
  {
    Paths.StemAndSuffix(name);
    var stem := Paths.Stem(name);
    var out := OutputName(name);
    assert out[|stem|] == '.';
    assert forall j :: |stem| < j < |out| ==> out[j] != '.';
    assert Paths.LastIndexOf(out, '.') == |stem|;
    assert out[..|stem|] == stem;
  }

  /** `output_folder` if given and non-empty, else `<input>/mp3_output`. */
  function OutputFolderFor(inputFolder: string, outputFolder: Option<string>): string {
    if outputFolder.Some? && outputFolder.value != "" then outputFolder.value
    else Paths.Join(inputFolder, "mp3_output")
  }

  function OutputPath(st: Settings, name: string): string {
    Paths.Join(st.outputFolder, OutputName(name))
  }

  /** The ffmpeg argument vector for one input file. */
  function ConvertCommand(st: Settings, name: string): seq<string> {
    ["ffmpeg",
     "-i", Paths.Join(st.inputFolder, name),
     "-vn",
     "-acodec", "libmp3lame",
     "-ab", st.bitrate,
     "-ar", IntToString(st.sampleRate),
     "-ac", "2",
     "-q:a", "0",
     "-y",
     OutputPath(st, name)]
  }

  /** The ffmpeg options of this template that take a value. */
  const FfmpegValued: set<string> := {"-i", "-acodec", "-ab", "-ar", "-ac", "-q:a"}

  /**
   * ffmpeg reads the command as: input after `-i`, no video, the MP3 codec,
   * the bitrate, the sample rate (whose digits denote `sampleRate`), two
   * channels, best VBR quality, overwrite, and the output path last; as long
   * as the output folder does not begin with '-'.
   */
  lemma ConvertCommandReading(st: Settings, name: string)
    requires st.outputFolder == [] || st.outputFolder[0] != '-'
    ensures var cmd := ConvertCommand(st, name);
      cmd[0] == "ffmpeg"
      && Argv.Parse(cmd[1..], FfmpegValued) ==
        [Argv.Opt("-i", Paths.Join(st.inputFolder, name)),
         Argv.Flag("-vn"),
         Argv.Opt("-acodec", "libmp3lame"),
         Argv.Opt("-ab", st.bitrate),
         Argv.Opt("-ar", IntToString(st.sampleRate)),
         Argv.Opt("-ac", "2"),
         Argv.Opt("-q:a", "0"),
         Argv.Flag("-y"),
         Argv.Positional(OutputPath(st, name))]
    ensures DecimalValue(IntToString(st.sampleRate)) == st.sampleRate
  {
    IntToStringRoundTrip(st.sampleRate);
    var input := Paths.Join(st.inputFolder, name);
    var out := OutputPath(st, name);
    OutputPathNotOption(st, name);
    var rate := IntToString(st.sampleRate);
    ConvertCommandArgs(st, name);
    FfmpegReading(input, st.bitrate, rate, out);
  }

  lemma OutputPathNotOption(st: Settings, name: string)
    requires st.outputFolder == [] || st.outputFolder[0] != '-'
    ensures OutputPath(st, name) != [] && OutputPath(st, name)[0] != '-'
  {
    var out := OutputPath(st, name);
    if st.outputFolder == [] { assert out[0] == '/'; } else { assert out[0] == st.outputFolder[0]; }
  }

  lemma ConvertCommandArgs(st: Settings, name: string)
    ensures ConvertCommand(st, name)[0] == "ffmpeg"
    ensures ConvertCommand(st, name)[1..] ==
      ["-i", Paths.Join(st.inputFolder, name), "-vn", "-acodec", "libmp3lame", "-ab", st.bitrate,
       "-ar", IntToString(st.sampleRate), "-ac", "2", "-q:a", "0", "-y", OutputPath(st, name)]
  {
  }

  lemma FfmpegReading(input: string, bitrate: string, rate: string, out: string)
    requires out != [] && out[0] != '-'
    ensures Argv.Parse(["-i", input, "-vn", "-acodec", "libmp3lame", "-ab", bitrate, "-ar", rate, "-ac", "2", "-q:a", "0", "-y", out], FfmpegValued)
      == [Argv.Opt("-i", input), Argv.Flag("-vn"), Argv.Opt("-acodec", "libmp3lame"), Argv.Opt("-ab", bitrate),
          Argv.Opt("-ar", rate), Argv.Opt("-ac", "2"), Argv.Opt("-q:a", "0"), Argv.Flag("-y"), Argv.Positional(out)]
  {
    var tail := ["-vn", "-acodec", "libmp3lame", "-ab", bitrate, "-ar", rate, "-ac", "2", "-q:a", "0", "-y", out];
    FfmpegOptionsReading(bitrate, rate, out);
    Argv.ParseOpt("-i", input, tail, FfmpegValued);
    assert ["-i", input] + tail == ["-i", input, "-vn", "-acodec", "libmp3lame", "-ab", bitrate, "-ar", rate, "-ac", "2", "-q:a", "0", "-y", out];
  }

  lemma FfmpegOptionsReading(bitrate: string, rate: string, out: string)
    requires out != [] && out[0] != '-'
    ensures Argv.Parse(["-vn", "-acodec", "libmp3lame", "-ab", bitrate, "-ar", rate, "-ac", "2", "-q:a", "0", "-y", out], FfmpegValued)
      == [Argv.Flag("-vn"), Argv.Opt("-acodec", "libmp3lame"), Argv.Opt("-ab", bitrate), Argv.Opt("-ar", rate),
          Argv.Opt("-ac", "2"), Argv.Opt("-q:a", "0"), Argv.Flag("-y"), Argv.Positional(out)]
  {
    var v := FfmpegValued;
    var tail := ["-ar", rate, "-ac", "2", "-q:a", "0", "-y", out];
    FfmpegTailReading(rate, out);
    Argv.ParseOpt("-ab", bitrate, tail, v);
    Argv.ParseOpt("-acodec", "libmp3lame", ["-ab", bitrate] + tail, v);
    Argv.ParseFlag("-vn", ["-acodec", "libmp3lame"] + (["-ab", bitrate] + tail), v);
    assert ["-vn"] + (["-acodec", "libmp3lame"] + (["-ab", bitrate] + tail))
      == ["-vn", "-acodec", "libmp3lame", "-ab", bitrate, "-ar", rate, "-ac", "2", "-q:a", "0", "-y", out];
  }

  lemma FfmpegTailReading(rate: string, out: string)
    requires out != [] && out[0] != '-'
    ensures Argv.Parse(["-ar", rate, "-ac", "2", "-q:a", "0", "-y", out], FfmpegValued)
      == [Argv.Opt("-ar", rate), Argv.Opt("-ac", "2"), Argv.Opt("-q:a", "0"), Argv.Flag("-y"), Argv.Positional(out)]
  {
    var v := FfmpegValued;
    assert out !in v;
    Argv.ParsePositional(out, v);
    Argv.ParseFlag("-y", [out], v);
    Argv.ParseOpt("-q:a", "0", ["-y", out], v);
    Argv.ParseOpt("-ac", "2", ["-q:a", "0", "-y", out], v);
    Argv.ParseOpt("-ar", rate, ["-ac", "2", "-q:a", "0", "-y", out], v);
  }

  /** The report `r` on file `name` tells what ffmpeg's `run` did. */
  predicate DescribesRun(name: string, run: FfmpegRun, r: Report) {
    && (r.Failure? <==> run.Raised?)
    && (r.Failure? ==> r.error == run.error)
    && (r.Success? ==> r.value.fileName == name)
    && (r.Success? ==> (r.value.success <==> run.code == 0))
    && (r.Success? && r.value.success ==> r.value.message == "→ " + OutputName(name))
    && (r.Success? && !r.value.success ==>
         && StartsWith(r.value.message, "Erreur: ")
         && |r.value.message| == |"Erreur: "| + (if |run.stderr| < MaxErrorLength then |run.stderr| else MaxErrorLength)
         && r.value.message[|"Erreur: "|..] == run.stderr[..|r.value.message| - |"Erreur: "|])
  }

  /**
   * `convert_mp4_to_mp3`: run ffmpeg on one file and turn its outcome into a
   * report. The report names the input file; it is a success exactly when
   * ffmpeg exited with 0, and then points at the output file; a non-zero
   * exit gives "Erreur: " and the first 100 characters of stderr, or all of
   * it when it is shorter; any other exception is not caught.
   */
  function ConvertMp4ToMp3(st: Settings, name: string, ffmpeg: Ffmpeg): (r: Report)
    ensures DescribesRun(name, ffmpeg(ConvertCommand(st, name)), r)
  {
    match ffmpeg(ConvertCommand(st, name))
    case Exited(code, err) =>
      if code == 0 then Success(Conversion(true, name, "→ " + OutputName(name)))
      else Success(Conversion(false, name, "Erreur: " + Take(err, MaxErrorLength)))
    case Raised(e) => Failure(e)
  }

  // ---------------------------------------------------------------------------
  // Counting

  datatype Kind = Converted | NotConverted | Crashed

  function KindOf(r: Report): Kind {
    if r.Failure? then Crashed else if r.value.success then Converted else NotConverted
  }

  /** How many reports are of kind `k`. */
  function Count(rs: seq<Report>, k: Kind): (n: nat)
    ensures n <= |rs|
  {
    if rs == [] then 0 else Count(rs[..|rs| - 1], k) + (if KindOf(rs[|rs| - 1]) == k then 1 else 0)
  }

  /** Every report is of exactly one kind. */
  lemma {:induction false} CountKinds(rs: seq<Report>)
    ensures Count(rs, Converted) + Count(rs, NotConverted) + Count(rs, Crashed) == |rs|
  {
    if rs != [] {
      CountKinds(rs[..|rs| - 1]);
    }
  }

  lemma {:induction false} CountAppend(a: seq<Report>, b: seq<Report>, k: Kind)
    ensures Count(a + b, k) == Count(a, k) + Count(b, k)
    decreases |b|
  {
    if b == [] {
      assert a + b == a;
    } else {
      assert (a + b)[..|a + b| - 1] == a + b[..|b| - 1];
      CountAppend(a, b[..|b| - 1], k);
    }
  }

  lemma CountSnoc(rs: seq<Report>, i: nat, k: Kind)
    requires i < |rs|
    ensures Count(rs[..i + 1], k) == Count(rs[..i], k) + (if KindOf(rs[i]) == k then 1 else 0)
  {
    assert rs[..i + 1][..i] == rs[..i];
  }

  lemma CountRemove(b: seq<Report>, j: nat, k: Kind)
    requires j < |b|
    ensures Count(b, k) == Count(b[..j] + b[j + 1..], k) + (if KindOf(b[j]) == k then 1 else 0)
  {
    assert b == b[..j] + [b[j]] + b[j + 1..];
    CountAppend(b[..j], [b[j]], k);
    CountAppend(b[..j] + [b[j]], b[j + 1..], k);
    CountAppend(b[..j], b[j + 1..], k);
    assert [b[j]][..0] == [];
  }

  /** Counts depend only on which reports there are, not on their order. */
  lemma {:induction false} CountPermutation(a: seq<Report>, b: seq<Report>, k: Kind)
    requires multiset(a) == multiset(b)
    ensures Count(a, k) == Count(b, k)
    decreases |a|
  {
    if a == [] {
      assert |multiset(b)| == 0;
    } else {
      var n := |a| - 1;
      assert a[n] in multiset(b);
      var j :| 0 <= j < |b| && b[j] == a[n];
      Seqs.MultisetRemove(a, n);
      Seqs.MultisetRemove(b, j);
      assert a[..n] + a[n + 1..] == a[..n];
      CountPermutation(a[..n], b[..j] + b[j + 1..], k);
      CountRemove(b, j, k);
      CountSnoc(a, n, k);
      assert a[..n + 1] == a;
    }
  }

  predicate HasCrash(rs: seq<Report>) {
    exists i :: 0 <= i < |rs| && rs[i].Failure?
  }

  lemma {:induction false} CrashCounted(rs: seq<Report>)
    ensures HasCrash(rs) <==> Count(rs, Crashed) > 0
  {
    if rs != [] {
      var init := rs[..|rs| - 1];
      CrashCounted(init);
      if HasCrash(init) {
        var i :| 0 <= i < |init| && init[i].Failure?;
        assert rs[i].Failure?;
      }
      if HasCrash(rs) && !rs[|rs| - 1].Failure? {
        var i :| 0 <= i < |rs| && rs[i].Failure?;
        assert init[i].Failure?;
      }
    }
  }

  /** The report `convert_mp4_to_mp3` gives for each file, in file order. */
  function Reports(st: Settings, names: seq<string>, ffmpeg: Ffmpeg): (rs: seq<Report>)
    ensures |rs| == |names|
    ensures forall i :: 0 <= i < |names| ==> rs[i] == ConvertMp4ToMp3(st, names[i], ffmpeg)
  {
    Seqs.MapSeq(name => ConvertMp4ToMp3(st, name, ffmpeg), names)
  }

  /** Reordering the files reorders their reports and nothing else. */
  lemma ReportsPermutation(st: Settings, a: seq<string>, b: seq<string>, ffmpeg: Ffmpeg)
    requires multiset(a) == multiset(b)
    ensures multiset(Reports(st, a, ffmpeg)) == multiset(Reports(st, b, ffmpeg))
  {
    Seqs.MapPermutation(name => ConvertMp4ToMp3(st, name, ffmpeg), a, b);
  }

  lemma ReportAt(st: Settings, names: seq<string>, ffmpeg: Ffmpeg, i: nat)
    requires i < |names|
    ensures Reports(st, names, ffmpeg)[i] == ConvertMp4ToMp3(st, names[i], ffmpeg)
  {
  }

  /**
   * What a batch over `rs` comes to when the reports are taken in this order:
   * the first exception escapes; otherwise every report is counted once.
   */
  predicate TalliedAs(rs: seq<Report>, r: Result<BatchStats, string>) {
    && (r.Failure? <==> HasCrash(rs))
    && (r.Failure? ==>
         exists i :: 0 <= i < |rs| && rs[i] == Failure(r.error) && forall j :: 0 <= j < i ==> rs[j].Success?)
    && (r.Success? ==>
         r.value == BatchStats(|rs|, Count(rs, Converted), Count(rs, NotConverted))
         && r.value.success + r.value.failed == r.value.total)
  }

  /** The loop state after counting the first `k` reports, none of them a crash. */
  predicate TallyState(rs: seq<Report>, k: nat, success: nat, failed: nat) {
    && k <= |rs|
    && (forall j :: 0 <= j < k ==> rs[j].Success?)
    && success == Count(rs[..k], Converted)
    && failed == Count(rs[..k], NotConverted)
    && Count(rs[..k], Crashed) == 0
  }

  lemma TallyStart(rs: seq<Report>)
    ensures TallyState(rs, 0, 0, 0)
  {
    assert rs[..0] == [];
  }

  /** Counting one more report that is not a crash. */
  lemma TallyStep(rs: seq<Report>, k: nat, success: nat, failed: nat)
    requires TallyState(rs, k, success, failed) && k < |rs| && rs[k].Success?
    ensures rs[k].value.success ==> TallyState(rs, k + 1, success + 1, failed)
    ensures !rs[k].value.success ==> TallyState(rs, k + 1, success, failed + 1)
  {
    CountSnoc(rs, k, Converted);
    CountSnoc(rs, k, NotConverted);
    CountSnoc(rs, k, Crashed);
  }

  /** A batch that met an exception at position `k`, after `k` reports. */
  lemma TalliedCrash(rs: seq<Report>, k: nat, success: nat, failed: nat)
    requires TallyState(rs, k, success, failed) && k < |rs| && rs[k].Failure?
    ensures TalliedAs(rs, Failure(rs[k].error))
  {
  }

  /** A batch that went through every report. */
  lemma TalliedComplete(rs: seq<Report>, k: nat, success: nat, failed: nat)
    requires k == |rs| && TallyState(rs, k, success, failed)
    ensures TalliedAs(rs, Success(BatchStats(k, success, failed)))
  {
    assert rs[..k] == rs;
    CountKinds(rs);
    CrashCounted(rs);
  }

  // ---------------------------------------------------------------------------
  // The two dispatch loops of convert_batch

  /** The sequential branch: convert the files one after the other, in list order. */
  method ConvertSequential(st: Settings, names: seq<string>, ffmpeg: Ffmpeg) returns (r: Result<BatchStats, string>)
    ensures TalliedAs(Reports(st, names, ffmpeg), r)
  {
    ghost var rs := Reports(st, names, ffmpeg);
    var success, failed := 0, 0;
    var i := 0;
    TallyStart(rs);
    while i < |names|
      invariant TallyState(rs, i, success, failed)
    {
      var report := ConvertMp4ToMp3(st, names[i], ffmpeg);
      ReportAt(st, names, ffmpeg, i);
      if report.Failure? {
        TalliedCrash(rs, i, success, failed);
        return Failure(report.error);
      }
      TallyStep(rs, i, success, failed);
      if report.value.success {
        success := success + 1;
      } else {
        failed := failed + 1;
      }
      i := i + 1;
    }
    TalliedComplete(rs, i, success, failed);
    r := Success(BatchStats(|names|, success, failed));
  }

  /**
   * The parallel branch: every file is submitted to the pool and the reports
   * are taken as the futures complete, which is the file list in some order
   * (`completed`); `future.result()` re-raises a worker's exception. The loop
   * over the completed futures has the body of the sequential loop, so it is
   * the sequential tally taken in completion order. Given the same ffmpeg
   * outcomes, the counts are those of the sequential branch.
   */
  method ConvertParallel(st: Settings, names: seq<string>, ffmpeg: Ffmpeg, completed: seq<string>)
    returns (r: Result<BatchStats, string>)
    requires multiset(completed) == multiset(names)
    ensures TalliedAs(Reports(st, completed, ffmpeg), r)
    ensures r.Failure? <==> HasCrash(Reports(st, names, ffmpeg))
    ensures r.Success? ==> TalliedAs(Reports(st, names, ffmpeg), r)
  {
    r := ConvertSequential(st, completed, ffmpeg);
    Reordered(st, names, completed, ffmpeg, r);
  }

  /** A tally taken in completion order is also the tally of the file order. */
  lemma Reordered(st: Settings, names: seq<string>, completed: seq<string>, ffmpeg: Ffmpeg, r: Result<BatchStats, string>)
    requires multiset(completed) == multiset(names)
    requires TalliedAs(Reports(st, completed, ffmpeg), r)
    ensures r.Failure? <==> HasCrash(Reports(st, names, ffmpeg))
    ensures r.Success? ==> TalliedAs(Reports(st, names, ffmpeg), r)
  {
    SameCrashes(st, names, completed, ffmpeg);
    if r.Success? {
      SameCounts(st, names, completed, ffmpeg);
      assert |completed| == |multiset(completed)| == |names|;
    }
  }

  /** Completion order changes none of the three counts. */
  lemma SameCounts(st: Settings, names: seq<string>, completed: seq<string>, ffmpeg: Ffmpeg)
    requires multiset(completed) == multiset(names)
    ensures var rs, order := Reports(st, names, ffmpeg), Reports(st, completed, ffmpeg);
      Count(order, Converted) == Count(rs, Converted)
      && Count(order, NotConverted) == Count(rs, NotConverted)
      && Count(order, Crashed) == Count(rs, Crashed)
  {
    ReportsPermutation(st, completed, names, ffmpeg);
    var rs, order := Reports(st, names, ffmpeg), Reports(st, completed, ffmpeg);
    CountPermutation(order, rs, Converted);
    CountPermutation(order, rs, NotConverted);
    CountPermutation(order, rs, Crashed);
  }

  lemma SameCrashes(st: Settings, names: seq<string>, completed: seq<string>, ffmpeg: Ffmpeg)
    requires multiset(completed) == multiset(names)
    ensures HasCrash(Reports(st, completed, ffmpeg)) <==> HasCrash(Reports(st, names, ffmpeg))
  {
    SameCounts(st, names, completed, ffmpeg);
    CrashCounted(Reports(st, completed, ffmpeg));
    CrashCounted(Reports(st, names, ffmpeg));
  }

  /**
   * `convert_batch`: check the input folder, list its MP4 files, stop with
   * zero counts when there are none, and otherwise dispatch them in parallel
   * when asked and there are at least two, sequentially otherwise.
   */
  method ConvertBatch(
    inputExists: bool, inputIsDir: bool, listing: seq<string>,
    inputFolder: string, outputFolder: Option<string>, bitrate: string, sampleRate: int,
    parallel: bool, ffmpeg: Ffmpeg, completed: seq<string>)
    returns (t: BatchEnd)
    requires parallel && |GetMp4Files(listing)| > 1 ==> multiset(completed) == multiset(GetMp4Files(listing))
    ensures !inputExists || !inputIsDir ==> t == SysExit(1)
    ensures inputExists && inputIsDir ==>
      var rs := Reports(Settings(inputFolder, OutputFolderFor(inputFolder, outputFolder), bitrate, sampleRate),
                        GetMp4Files(listing), ffmpeg);
      && (t.Uncaught? <==> HasCrash(rs))
      && (t.Returned? <==> !HasCrash(rs))
      && (t.Returned? ==> TalliedAs(rs, Success(t.stats)))
  {
    if !inputExists || !inputIsDir {
      return SysExit(1);
    }
    var st := Settings(inputFolder, OutputFolderFor(inputFolder, outputFolder), bitrate, sampleRate);
    var files := GetMp4Files(listing);
    if |files| == 0 {
      return Returned(BatchStats(0, 0, 0));
    }
    var r;
    if parallel && |files| > 1 {
      r := ConvertParallel(st, files, ffmpeg, completed);
    } else {
      r := ConvertSequential(st, files, ffmpeg);
    }
    t := if r.Success? then Returned(r.value) else Uncaught(r.error);
  }

  /**
   * `main`: exit with 1 when ffmpeg is not installed, when the batch stops
   * early (bad input folder, uncaught exception) or when any conversion
   * failed; with 0 otherwise, an empty folder included.
   */
  method RunConverter(
    ffmpegInstalled: bool, inputExists: bool, inputIsDir: bool, listing: seq<string>,
    inputFolder: string, outputFolder: Option<string>, bitrate: string, sampleRate: int,
    sequential: bool, ffmpeg: Ffmpeg, completed: seq<string>)
    returns (exitCode: int)
    requires !sequential && |GetMp4Files(listing)| > 1 ==> multiset(completed) == multiset(GetMp4Files(listing))
    ensures exitCode == 0 || exitCode == 1
    ensures exitCode == 0 <==>
      var rs := Reports(Settings(inputFolder, OutputFolderFor(inputFolder, outputFolder), bitrate, sampleRate),
                        GetMp4Files(listing), ffmpeg);
      ffmpegInstalled && inputExists && inputIsDir && !HasCrash(rs) && Count(rs, NotConverted) == 0
  {
    if !ffmpegInstalled {
      return 1;
    }
    var t := ConvertBatch(inputExists, inputIsDir, listing, inputFolder, outputFolder, bitrate, sampleRate,
                          !sequential, ffmpeg, completed);
    match t
    case SysExit(code) => exitCode := code;
    case Uncaught(_) => exitCode := 1;
    case Returned(stats) => exitCode := if stats.failed > 0 then 1 else 0;
  }
}
