/**
 * The downloader (download_mp3.py): read the YouTube links of a text file,
 * run `yt-dlp` once per link to fetch its audio as an MP3 file, count the
 * successes and failures, and save the failed links to
 * `failed_downloads.txt` so that they can be retried.
 *
 * `yt-dlp` itself is a parameter: a function from the argument vector to
 * what the process came to.
 */
module DownloadMp3 {
  import opened Text
  import Paths
  import Argv
  import Seqs
  import TextFile

  /** What running `yt-dlp` came to. */
  datatype DownloadRun =
    | Completed(returnCode: int, stderr: string)  // the process ran and exited
    | NotInstalled                                  // the program could not be found
    | Raised(error: string)                         // any other exception, by its text

  type Downloader = seq<string> -> DownloadRun

  /** The `(ok, message)` pair of `download_mp3`. */
  datatype Outcome = Outcome(ok: bool, message: string)

  const OutputTemplate: string := "%(title)s.%(ext)s"
  const InstallHint: string := "yt-dlp non trouvé.  Installe-le avec: pip install yt-dlp"
  const UnknownError: string := "Erreur inconnue"
  const MaxErrorLength: nat := 100

  // ---------------------------------------------------------------------------
  // One download

  /** The argument vector given to `yt-dlp` for one link. */
  function DownloadCommand(url: string, folder: string): seq<string> {
    ["yt-dlp", "-f", "bestaudio", "--extract-audio", "--audio-format", "mp3", "--audio-quality", "0",
     "-o", Paths.Join(folder, OutputTemplate), "--no-playlist", url]
  }

  /** The options of `yt-dlp` used here that take a value. */
  const YtDlpValued: set<string> := {"-f", "--audio-format", "--audio-quality", "-o"}

  /** The options of the command as `yt-dlp` reads them. */
  function DownloadOptions(folder: string): seq<Argv.Arg> {
    [Argv.Opt("-f", "bestaudio"), Argv.Flag("--extract-audio"), Argv.Opt("--audio-format", "mp3"),
     Argv.Opt("--audio-quality", "0"), Argv.Opt("-o", Paths.Join(folder, OutputTemplate)),
     Argv.Flag("--no-playlist")]
  }

  /**
   * The command runs `yt-dlp`, ends with the link, and asks for the best
   * audio stream converted to MP3 at the best quality, saved under the
   * video's title in the output folder, without following playlists; a
   * link that does not start with '-' is read as the one positional
   * argument.
   */
  lemma DownloadCommandReading(url: string, folder: string)
    ensures |DownloadCommand(url, folder)| == 12
    ensures DownloadCommand(url, folder)[0] == "yt-dlp" && DownloadCommand(url, folder)[11] == url
    ensures Argv.Parse(DownloadCommand(url, folder)[1..11], YtDlpValued) == DownloadOptions(folder)
    ensures !Argv.LooksLikeOption(url) ==>
      Argv.Parse(DownloadCommand(url, folder)[1..], YtDlpValued) == DownloadOptions(folder) + [Argv.Positional(url)]
  {
    var cmd := DownloadCommand(url, folder);
    OptionsReading(url, folder, []);
    assert cmd[1..11] + [] == cmd[1..11];
    if !Argv.LooksLikeOption(url) {
      OptionsReading(url, folder, [url]);
      assert cmd[1..] == cmd[1..11] + [url];
      assert url !in YtDlpValued;
      Argv.ParsePositional(url, YtDlpValued);
    }
  }

  lemma OptionsReading(url: string, folder: string, rest: seq<string>)
    ensures Argv.Parse(DownloadCommand(url, folder)[1..11] + rest, YtDlpValued)
         == DownloadOptions(folder) + Argv.Parse(rest, YtDlpValued)
  {
    var o := Paths.Join(folder, OutputTemplate);
    assert DownloadCommand(url, folder)[1..11]
        == ["-f", "bestaudio", "--extract-audio", "--audio-format", "mp3", "--audio-quality", "0", "-o", o, "--no-playlist"];
    YtDlpOptionsReading(o, rest);
  }

  lemma YtDlpOptionsReading(o: string, rest: seq<string>)
    ensures Argv.Parse(["-f", "bestaudio", "--extract-audio", "--audio-format", "mp3", "--audio-quality", "0",
                        "-o", o, "--no-playlist"] + rest, YtDlpValued)
         == [Argv.Opt("-f", "bestaudio"), Argv.Flag("--extract-audio"), Argv.Opt("--audio-format", "mp3"),
             Argv.Opt("--audio-quality", "0"), Argv.Opt("-o", o), Argv.Flag("--no-playlist")]
            + Argv.Parse(rest, YtDlpValued)
  {
    var v := YtDlpValued;
    var t5 := ["--no-playlist"] + rest;
    var t4 := ["-o", o] + t5;
    var t3 := ["--audio-quality", "0"] + t4;
    var t2 := ["--audio-format", "mp3"] + t3;
    var t1 := ["--extract-audio"] + t2;
    ArgsRegrouped("-f", "bestaudio", "--extract-audio", "--audio-format", "mp3", "--audio-quality", "0", "-o", o,
      "--no-playlist", rest);
    Argv.ParseFlag("--no-playlist", rest, v);
    Argv.ParseOpt("-o", o, t5, v);
    Argv.ParseOpt("--audio-quality", "0", t4, v);
    Argv.ParseOpt("--audio-format", "mp3", t3, v);
    Argv.ParseFlag("--extract-audio", t2, v);
    Argv.ParseOpt("-f", "bestaudio", t1, v);
    ParsedRegrouped(Argv.Opt("-f", "bestaudio"), Argv.Flag("--extract-audio"), Argv.Opt("--audio-format", "mp3"),
      Argv.Opt("--audio-quality", "0"), Argv.Opt("-o", o), Argv.Flag("--no-playlist"), Argv.Parse(rest, v));
  }

  lemma ArgsRegrouped(a0: string, a1: string, a2: string, a3: string, a4: string, a5: string, a6: string,
                      a7: string, a8: string, a9: string, rest: seq<string>)
    ensures [a0, a1, a2, a3, a4, a5, a6, a7, a8, a9] + rest
         == [a0, a1] + ([a2] + ([a3, a4] + ([a5, a6] + ([a7, a8] + ([a9] + rest)))))
  {
  }

  lemma ParsedRegrouped(p0: Argv.Arg, p1: Argv.Arg, p2: Argv.Arg, p3: Argv.Arg, p4: Argv.Arg, p5: Argv.Arg,
                        rest: seq<Argv.Arg>)
    ensures [p0] + ([p1] + ([p2] + ([p3] + ([p4] + ([p5] + rest))))) == [p0, p1, p2, p3, p4, p5] + rest
  {
  }

  /**
   * How a run of `yt-dlp` is reported: success exactly when the process
   * exited with 0, with "OK"; on another exit code the first hundred
   * characters of the stripped error output, or "Erreur inconnue" when there
   * was none; the installation hint when the program is missing; and the
   * text of any other exception.
   */
  predicate DescribesDownload(run: DownloadRun, o: Outcome) {
    && (o.ok <==> run.Completed? && run.returnCode == 0)
    && (o.ok ==> o.message == "OK")
    && (run.Completed? && !o.ok && run.stderr == "" ==> o.message == UnknownError)
    && (run.Completed? && !o.ok && run.stderr != "" ==>
          && |o.message| == (if |Strip(run.stderr)| < MaxErrorLength then |Strip(run.stderr)| else MaxErrorLength)
          && o.message == Strip(run.stderr)[..|o.message|])
    && (run.NotInstalled? ==> o.message == InstallHint)
    && (run.Raised? ==> o.message == run.error)
  }

  /** `download_mp3`: one run of `yt-dlp` for one link. */
  function DownloadMp3(url: string, folder: string, download: Downloader): (o: Outcome)
    ensures DescribesDownload(download(DownloadCommand(url, folder)), o)
  {
    match download(DownloadCommand(url, folder))
    case Completed(code, err) =>
      if code == 0 then Outcome(true, "OK")
      else Outcome(false, if err != "" then Take(Strip(err), MaxErrorLength) else UnknownError)
    case NotInstalled => Outcome(false, InstallHint)
    case Raised(e) => Outcome(false, e)
  }

  /**
   * Error output made only of whitespace is reported as an empty message,
   * not as "Erreur inconnue": the test is on the output before stripping.
   */
  lemma BlankErrorOutput(url: string, folder: string, download: Downloader)
    requires download(DownloadCommand(url, folder)).Completed?
    requires download(DownloadCommand(url, folder)).returnCode != 0
    requires download(DownloadCommand(url, folder)).stderr != []
    requires forall k :: 0 <= k < |download(DownloadCommand(url, folder)).stderr| ==>
               IsSpace(download(DownloadCommand(url, folder)).stderr[k])
    ensures DownloadMp3(url, folder, download) == Outcome(false, "")
  {
    var err := download(DownloadCommand(url, folder)).stderr;
    var r := Strip(err);
    if r != [] {
      assert false;
    }
  }

  // ---------------------------------------------------------------------------
  // Reading the links file

  /** The test `read_links` applies to a stripped line. */
  predicate LinkAccepted(line: string) {
    && line != ""
    && !StartsWith(line, "#")
    && (Contains(line, "youtube.com/watch") || Contains(line, "youtu. be/"))
  }

  /** The links `read_links` returns for the lines of a file: the accepted stripped lines, in order. */
  function ValidLinks(lines: seq<string>): seq<string> {
    Seqs.Filter(LinkAccepted, Seqs.MapSeq(Strip, lines))
  }

  /** A line that `read_links` would keep as it is. */
  predicate IsReadLink(line: string) {
    LinkAccepted(line) && Strip(line) == line
  }

  lemma ValidLinksSnoc(lines: seq<string>, line: string)
    ensures ValidLinks(lines + [line])
         == ValidLinks(lines) + (if LinkAccepted(Strip(line)) then [Strip(line)] else [])
  {
    Seqs.MapAppend(Strip, lines, [line]);
    Seqs.FilterAppend(LinkAccepted, Seqs.MapSeq(Strip, lines), [Strip(line)]);
  }

  lemma ValidLinksAppend(a: seq<string>, b: seq<string>)
    ensures ValidLinks(a + b) == ValidLinks(a) + ValidLinks(b)
  {
    Seqs.MapAppend(Strip, a, b);
    Seqs.FilterAppend(LinkAccepted, Seqs.MapSeq(Strip, a), Seqs.MapSeq(Strip, b));
  }

  /**
   * Every returned link is non-empty, not a comment, holds one of the two
   * link markers and has no surrounding whitespace; every line that passes
   * the test once stripped is returned; and the links come in the order of
   * the lines, at most one per line.
   */
  lemma ValidLinksShape(lines: seq<string>)
    ensures forall l :: l in ValidLinks(lines) ==> IsReadLink(l)
    ensures forall j :: 0 <= j < |lines| && LinkAccepted(Strip(lines[j])) ==> Strip(lines[j]) in ValidLinks(lines)
    ensures Seqs.IsSubsequence(ValidLinks(lines), Seqs.MapSeq(Strip, lines))
    ensures |ValidLinks(lines)| <= |lines|
  {
    var stripped := Seqs.MapSeq(Strip, lines);
    Seqs.FilterMultiset(LinkAccepted, stripped);
    Seqs.FilterIsSubsequence(LinkAccepted, stripped);
    forall l | l in ValidLinks(lines)
      ensures IsReadLink(l)
    {
      assert l in multiset(ValidLinks(lines));
      assert l in stripped;
      var j :| 0 <= j < |stripped| && stripped[j] == l;
      StripIdempotent(lines[j]);
    }
    forall j | 0 <= j < |lines| && LinkAccepted(Strip(lines[j]))
      ensures Strip(lines[j]) in ValidLinks(lines)
    {
      assert stripped[j] == Strip(lines[j]);
      assert Strip(lines[j]) in multiset(stripped);
      assert ValidLinks(lines) == Seqs.Filter(LinkAccepted, stripped);
      assert multiset(ValidLinks(lines))[Strip(lines[j])] > 0;
    }
  }

  /** The links of one more line come after those of the lines before it. */
  lemma ValidLinksStep(lines: seq<string>, i: nat)
    requires i < |lines|
    ensures ValidLinks(lines[..i + 1])
         == ValidLinks(lines[..i]) + (if LinkAccepted(Strip(lines[i])) then [Strip(lines[i])] else [])
  {
    assert lines[..i + 1] == lines[..i] + [lines[i]];
    ValidLinksSnoc(lines[..i], lines[i]);
  }

  /** `read_links`: the links of the text of a file, read line by line. */
  method ReadLinks(text: string) returns (links: seq<string>)
    ensures links == ValidLinks(TextFile.TextLines(text))
  {
    var lines := TextFile.TextLines(text);
    links := [];
    var i := 0;
    while i < |lines|
      invariant 0 <= i <= |lines|
      invariant links == ValidLinks(lines[..i])
    {
      var line := Strip(lines[i]);
      ValidLinksStep(lines, i);
      if line != "" && !StartsWith(line, "#") {
        if Contains(line, "youtube.com/watch") || Contains(line, "youtu. be/") {
          assert LinkAccepted(line);
          links := links + [line];
        } else {
          assert !LinkAccepted(line);
        }
      } else {
        assert !LinkAccepted(line);
      }
      i := i + 1;
    }
    assert lines[..i] == lines;
  }

  /**
   * The short-link marker is tested with a space after the dot, so a real
   * short link `https://youtu.be/<id>` is not accepted, for any video id
   * (made of letters, digits, '-' and '_').
   */
  lemma ShortLinkRejected(id: string)
    requires forall k :: 0 <= k < |id| ==> !IsSpace(id[k]) && id[k] != '/'
    ensures !LinkAccepted(Strip("https://youtu.be/" + id))
  {
    var prefix := "https://youtu.be/";
    var link := prefix + id;
    assert forall k :: 0 <= k < |link| ==> !IsSpace(link[k]) by {
      forall k | 0 <= k < |link|
        ensures !IsSpace(link[k])
      {
        if k < |prefix| {
          assert link[k] == prefix[k];
        } else {
          assert link[k] == id[k - |prefix|];
        }
      }
    }
    StripOfStripped(link);
    assert Strip(link) == link;
    var spaced := "youtu. be/";
    assert spaced[6] == ' ';
    assert IsSpace(' ');
    assert forall k :: 0 <= k < |link| ==> link[k] != ' ';
    MissingChar(link, spaced, 6);
    NoWatchMarker(prefix, id);
  }

  lemma NoWatchMarker(prefix: string, id: string)
    requires prefix == "https://youtu.be/"
    requires forall k :: 0 <= k < |id| ==> id[k] != '/'
    ensures !Contains(prefix + id, "youtube.com/watch")
  {
    var link := prefix + id;
    var p := "youtube.com/watch";
    forall i: nat | i + |p| <= |link|
      ensures !OccursAt(link, p, i)
    {
      var w := link[i..i + |p|];
      if i >= 6 {
        assert w[11] == id[i + 11 - |prefix|] != p[11];
      } else if i == 5 {
        assert w[0] == ':' != p[0];
      } else {
        assert w[11] == prefix[i + 11] != p[11];
      }
    }
    NoOccurrence(link, p);
  }

  // ---------------------------------------------------------------------------
  // The download loop

  /** Whether the download of one link fails. */
  predicate DownloadFails(url: string, folder: string, download: Downloader) {
    !DownloadMp3(url, folder, download).ok
  }

  /** The links whose download fails, in the order of the list. */
  function FailedLinks(links: seq<string>, folder: string, download: Downloader): seq<string> {
    Seqs.Filter(url => DownloadFails(url, folder, download), links)
  }

  /**
   * The failed links are an in-order selection of the links, holding every
   * link whose download fails and no other.
   */
  lemma FailedLinksShape(links: seq<string>, folder: string, download: Downloader)
    ensures Seqs.IsSubsequence(FailedLinks(links, folder, download), links)
    ensures forall u :: u in FailedLinks(links, folder, download) <==> u in links && DownloadFails(u, folder, download)
  {
    var fails := url => DownloadFails(url, folder, download);
    Seqs.FilterIsSubsequence(fails, links);
    Seqs.FilterMultiset(fails, links);
    forall u | u in links && DownloadFails(u, folder, download)
      ensures u in FailedLinks(links, folder, download)
    {
      assert u in multiset(links);
    }
    forall u | u in FailedLinks(links, folder, download)
      ensures u in links
    {
      assert u in multiset(FailedLinks(links, folder, download));
    }
  }

  /** When every download succeeds nothing is listed, and when every one fails all are. */
  lemma FailedLinksExtremes(links: seq<string>, folder: string, download: Downloader)
    ensures (forall i :: 0 <= i < |links| ==> !DownloadFails(links[i], folder, download)) ==>
              FailedLinks(links, folder, download) == []
    ensures (forall i :: 0 <= i < |links| ==> DownloadFails(links[i], folder, download)) ==>
              FailedLinks(links, folder, download) == links
  {
    var fails := url => DownloadFails(url, folder, download);
    if forall i :: 0 <= i < |links| ==> !DownloadFails(links[i], folder, download) {
      Seqs.FilterNone(fails, links);
    }
    if forall i :: 0 <= i < |links| ==> DownloadFails(links[i], folder, download) {
      Seqs.FilterAll(fails, links);
    }
  }

  /**
   * The loop of `main`: every link is downloaded once, in order; the
   * successes and failures add up to the number of links, and the failed
   * links are kept in order.
   */
  method DownloadAll(links: seq<string>, folder: string, download: Downloader)
    returns (success: nat, failed: nat, failedUrls: seq<string>)
    ensures failedUrls == FailedLinks(links, folder, download)
    ensures failed == |failedUrls|
    ensures success + failed == |links|
  {
    success, failed, failedUrls := 0, 0, [];
    var i := 0;
    while i < |links|
      invariant 0 <= i <= |links|
      invariant failedUrls == FailedLinks(links[..i], folder, download)
      invariant failed == |failedUrls| && success + failed == i
    {
      var url := links[i];
      var outcome := DownloadMp3(url, folder, download);
      Seqs.FilterAppend(url => DownloadFails(url, folder, download), links[..i], [url]);
      assert links[..i + 1] == links[..i] + [url];
      if outcome.ok {
        success := success + 1;
      } else {
        failed := failed + 1;
        failedUrls := failedUrls + [url];
      }
      i := i + 1;
    }
    assert links[..i] == links;
  }

  // ---------------------------------------------------------------------------
  // The whole run

  const DefaultOutputFolder: string := "mp3_downloads"
  const FailedFile: string := "failed_downloads.txt"

  /** The second argument if there is one, else `mp3_downloads`. */
  function OutputFolderOf(args: seq<string>): string
    requires args != []
  {
    if |args| > 1 then args[1] else DefaultOutputFolder
  }

  /** The text of `failed_downloads.txt`: one link per line, in order. */
  method WriteFailedFile(failedUrls: seq<string>) returns (text: string)
    ensures text == TextFile.Render(failedUrls)
  {
    text := "";
    var i := 0;
    while i < |failedUrls|
      invariant 0 <= i <= |failedUrls|
      invariant text == TextFile.Render(failedUrls[..i])
    {
      TextFile.RenderSnoc(failedUrls[..i], failedUrls[i]);
      assert failedUrls[..i + 1] == failedUrls[..i] + [failedUrls[i]];
      text := text + failedUrls[i] + "\n";
      i := i + 1;
    }
    assert failedUrls[..i] == failedUrls;
  }

  /**
   * `main`: stop with 1 without a links-file argument, when the file does not
   * exist or holds no valid link; otherwise download every link and, when
   * some failed, write them to `failed_downloads.txt`. Failed downloads do
   * not change the exit status. The file system is a map from path to text.
   */
  method RunDownload(args: seq<string>, fs: map<string, string>, download: Downloader)
    returns (exitCode: int, fs': map<string, string>)
    ensures exitCode == 0 || exitCode == 1
    ensures exitCode == 1 <==>
      args == [] || args[0] !in fs || ValidLinks(TextFile.TextLines(fs[args[0]])) == []
    ensures exitCode == 1 ==> fs' == fs
    ensures exitCode == 0 ==>
      && args != [] && args[0] in fs
      && var failed := FailedLinks(ValidLinks(TextFile.TextLines(fs[args[0]])), OutputFolderOf(args), download);
         fs' == if failed == [] then fs else fs[FailedFile := TextFile.Render(failed)]
  {
    if |args| < 1 {
      return 1, fs;
    }
    var linksFile := args[0];
    var outputFolder := if |args| > 1 then args[1] else DefaultOutputFolder;
    if linksFile !in fs {
      return 1, fs;
    }
    var links := ReadLinks(fs[linksFile]);
    if |links| == 0 {
      return 1, fs;
    }
    var success, failed, failedUrls := DownloadAll(links, outputFolder, download);
    fs' := fs;
    if |failedUrls| > 0 {
      var text := WriteFailedFile(failedUrls);
      fs' := fs'[FailedFile := text];
    }
    exitCode := 0;
  }
}
