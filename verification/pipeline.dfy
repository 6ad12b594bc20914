/**
 * The two scripts as one pipeline: the report and the links-only file that
 * the search script writes are meant to be given to the downloader (whose
 * usage line names `youtube_links.txt`), and the downloader's
 * `failed_downloads.txt` is meant to be given back to it. Reading any of
 * these files with `read_links` gives exactly the links that were written,
 * in order.
 */
module Pipeline {
  import opened Wrappers
  import opened Text
  import Seqs
  import TextFile
  import YoutubeSearch
  import DownloadMp3

  /** A link that comes back unchanged after being written as a line and read with `read_links`. */
  predicate Survives(link: string) {
    TextFile.NoBreaks(link) && DownloadMp3.IsReadLink(link)
  }

  /** `read_links` keeps a line list as it is exactly when every line is a link it keeps as it is. */
  lemma ValidLinksFixed(ls: seq<string>)
    ensures DownloadMp3.ValidLinks(ls) == ls <==> forall i :: 0 <= i < |ls| ==> DownloadMp3.IsReadLink(ls[i])
  {
    if forall i :: 0 <= i < |ls| ==> DownloadMp3.IsReadLink(ls[i]) {
      var stripped := Seqs.MapSeq(Strip, ls);
      assert stripped == ls;
      Seqs.FilterAll(DownloadMp3.LinkAccepted, ls);
    }
    if DownloadMp3.ValidLinks(ls) == ls {
      DownloadMp3.ValidLinksShape(ls);
      forall i | 0 <= i < |ls|
        ensures DownloadMp3.IsReadLink(ls[i])
      {
        assert ls[i] in DownloadMp3.ValidLinks(ls);
      }
    }
  }

  /** Written lines that all survive are read back as they were written. */
  lemma ReadBackSurvivors(ls: seq<string>)
    requires forall i :: 0 <= i < |ls| ==> Survives(ls[i])
    ensures DownloadMp3.ValidLinks(TextFile.TextLines(TextFile.Render(ls))) == ls
  {
    TextFile.TextLinesOfRender(ls);
    ValidLinksFixed(ls);
  }

  /** A line starting with '#' is skipped by `read_links`. */
  lemma CommentSkipped(line: string)
    requires line != [] && line[0] == '#'
    ensures !DownloadMp3.LinkAccepted(Strip(line))
  {
    var r := Strip(line);
    assert !IsSpace(line[0]);
    assert LeadingSpaces(line) == 0;
    assert |r| > 0;
    assert r[..1] == "#";
  }

  /**
   * A link built by the search is kept as it is by `read_links` when the
   * video id has no line break and does not end in whitespace.
   */
  lemma SearchLinkSurvives(id: string)
    requires id != [] && TextFile.NoBreaks(id) && !IsSpace(id[|id| - 1])
    ensures Survives(YoutubeSearch.WatchPrefix + id)
  {
    var link := YoutubeSearch.WatchPrefix + id;
    assert link[0] == 'h' && link[|link| - 1] == id[|id| - 1];
    StripOfStripped(link);
    YoutubeSearch.WatchLinkContains(id);
    assert !StartsWith(link, "#") by {
      assert link[..1] != "#";
    }
    assert TextFile.NoBreaks(YoutubeSearch.WatchPrefix);
    TextFile.NoBreaksAppend(YoutubeSearch.WatchPrefix, id);
  }

  /** Every link the search finds is a watch link. */
  lemma FoundLinksAreWatchLinks(files: seq<string>, engine: YoutubeSearch.SearchEngine)
    ensures forall l :: l in YoutubeSearch.FoundLinks(YoutubeSearch.Records(files, engine)) ==>
      StartsWith(l, YoutubeSearch.WatchPrefix) && Contains(l, "youtube.com/watch")
  {
    var results := YoutubeSearch.Records(files, engine);
    YoutubeSearch.FoundLinksComplete(results);
    forall l | l in YoutubeSearch.FoundLinks(results)
      ensures StartsWith(l, YoutubeSearch.WatchPrefix) && Contains(l, "youtube.com/watch")
    {
      var i :| 0 <= i < |results| && results[i].link == Some(l);
      assert results[i] == YoutubeSearch.RecordFor(files[i], engine);
      StartsWithSplit(l, YoutubeSearch.WatchPrefix);
      YoutubeSearch.WatchLinkContains(l[|YoutubeSearch.WatchPrefix|..]);
    }
  }

  /** Every line of the report is blank, a comment, or one of the links found. */
  lemma FullFileLineKinds(folderAbs: string, found: nat, total: nat, results: seq<YoutubeSearch.SearchRecord>)
    ensures forall i :: 0 <= i < |YoutubeSearch.FullFileLines(folderAbs, found, total, results)| ==>
      var line := YoutubeSearch.FullFileLines(folderAbs, found, total, results)[i];
      line == "" || StartsWith(line, "#") || line in YoutubeSearch.FoundLinks(results)
  {
    var header := YoutubeSearch.HeaderLines(folderAbs, found, total);
    var lines := YoutubeSearch.FullFileLines(folderAbs, found, total, results);
    YoutubeSearch.FoundLinksComplete(results);
    forall i | 0 <= i < |lines|
      ensures lines[i] == "" || StartsWith(lines[i], "#") || lines[i] in YoutubeSearch.FoundLinks(results)
    {
      if i < |header| {
        assert lines[i] == header[i];
        assert header[i] == "" || header[i][..1] == "#";
      } else {
        var r := results[i - |header|];
        assert lines[i] == YoutubeSearch.ResultLine(r);
        if r.link.None? {
          assert lines[i][..1] == "#";
        }
      }
    }
  }

  // ---------------------------------------------------------------------------
  // Reading the search script's files

  /** The conditions under which the report is read back as its links. */
  predicate Writable(folderAbs: string, results: seq<YoutubeSearch.SearchRecord>) {
    && TextFile.NoBreaks(folderAbs)
    && (forall i :: 0 <= i < |results| ==> TextFile.NoBreaks(results[i].filename))
    && (forall i :: 0 <= i < |results| && results[i].link.Some? ==> Survives(results[i].link.value))
  }

  /** The header of the report holds no line break and no link. */
  lemma HeaderSkipped(folderAbs: string, found: nat, total: nat)
    requires TextFile.NoBreaks(folderAbs)
    ensures forall i :: 0 <= i < |YoutubeSearch.HeaderLines(folderAbs, found, total)| ==>
      TextFile.NoBreaks(YoutubeSearch.HeaderLines(folderAbs, found, total)[i])
    ensures DownloadMp3.ValidLinks(YoutubeSearch.HeaderLines(folderAbs, found, total)) == []
  {
    var h := YoutubeSearch.HeaderLines(folderAbs, found, total);
    HeaderNoBreaks(folderAbs, found, total);
    forall i | 0 <= i < 4
      ensures !DownloadMp3.LinkAccepted(Strip(h[i]))
    {
      CommentSkipped(h[i]);
    }
    assert !DownloadMp3.LinkAccepted(Strip(h[4]));
    Seqs.FilterNone(DownloadMp3.LinkAccepted, Seqs.MapSeq(Strip, h));
  }

  lemma HeaderNoBreaks(folderAbs: string, found: nat, total: nat)
    requires TextFile.NoBreaks(folderAbs)
    ensures forall i :: 0 <= i < |YoutubeSearch.HeaderLines(folderAbs, found, total)| ==>
      TextFile.NoBreaks(YoutubeSearch.HeaderLines(folderAbs, found, total)[i])
  {
    var b := "# Généré à partir de: ";
    assert TextFile.NoBreaks(b);
    TextFile.NoBreaksAppend(b, folderAbs);
    TotalLineNoBreaks(found, total);
    TextFile.NoBreaksAppend("#", Repeat('=', YoutubeSearch.RuleWidth));
    assert TextFile.NoBreaks("# Liens YouTube trouvés");
  }

  lemma TotalLineNoBreaks(found: nat, total: nat)
    ensures TextFile.NoBreaks(YoutubeSearch.TotalLine(found, total))
  {
    var c, f, t := "# Total: ", NatToString(found), NatToString(total);
    assert TextFile.NoBreaks(c) && TextFile.NoBreaks(f) && TextFile.NoBreaks(t);
    assert TextFile.NoBreaks(" trouvés / ") && TextFile.NoBreaks(" fichiers");
    TextFile.NoBreaksAppend(c, f);
    TextFile.NoBreaksAppend(c + f, " trouvés / ");
    TextFile.NoBreaksAppend(c + f + " trouvés / ", t);
    TextFile.NoBreaksAppend(c + f + " trouvés / " + t, " fichiers");
  }

  /** The result lines are read back as the links found, in order. */
  lemma ResultLineNoBreaks(r: YoutubeSearch.SearchRecord)
    requires TextFile.NoBreaks(r.filename)
    requires r.link.Some? ==> Survives(r.link.value)
    ensures TextFile.NoBreaks(YoutubeSearch.ResultLine(r))
  {
    var missing := "# NON TROUVÉ: ";
    assert TextFile.NoBreaks(missing);
    TextFile.NoBreaksAppend(missing, r.filename);
  }

  lemma {:induction false} ResultLinesRead(results: seq<YoutubeSearch.SearchRecord>)
    requires forall i :: 0 <= i < |results| ==> TextFile.NoBreaks(results[i].filename)
    requires forall i :: 0 <= i < |results| && results[i].link.Some? ==> Survives(results[i].link.value)
    ensures forall i :: 0 <= i < |results| ==> TextFile.NoBreaks(YoutubeSearch.ResultLine(results[i]))
    ensures DownloadMp3.ValidLinks(Seqs.MapSeq(YoutubeSearch.ResultLine, results)) == YoutubeSearch.FoundLinks(results)
  {
    forall i | 0 <= i < |results|
      ensures TextFile.NoBreaks(YoutubeSearch.ResultLine(results[i]))
    {
      ResultLineNoBreaks(results[i]);
    }
    if results != [] {
      var n := |results| - 1;
      var r := results[n];
      ResultLinesRead(results[..n]);
      var line := YoutubeSearch.ResultLine(r);
      Seqs.MapSnoc(YoutubeSearch.ResultLine, results);
      DownloadMp3.ValidLinksSnoc(Seqs.MapSeq(YoutubeSearch.ResultLine, results[..n]), line);
      if r.link.Some? {
        assert Strip(line) == line;
      } else {
        CommentSkipped(line);
      }
    }
  }

  /** Reading the report with `read_links` gives the links found, in the order of the files. */
  lemma FullFileReadBack(folderAbs: string, found: nat, total: nat, results: seq<YoutubeSearch.SearchRecord>)
    requires Writable(folderAbs, results)
    ensures DownloadMp3.ValidLinks(TextFile.TextLines(TextFile.Render(
              YoutubeSearch.FullFileLines(folderAbs, found, total, results)))) == YoutubeSearch.FoundLinks(results)
  {
    var header := YoutubeSearch.HeaderLines(folderAbs, found, total);
    var body := Seqs.MapSeq(YoutubeSearch.ResultLine, results);
    var lines := YoutubeSearch.FullFileLines(folderAbs, found, total, results);
    HeaderSkipped(folderAbs, found, total);
    ResultLinesRead(results);
    assert lines == header + body;
    TextFile.LinesAppendNoBreaks(header, body);
    TextFile.TextLinesOfRender(lines);
    DownloadMp3.ValidLinksAppend(header, body);
  }

  /** Reading the links-only file with `read_links` gives the same links. */
  lemma LinksOnlyReadBack(results: seq<YoutubeSearch.SearchRecord>)
    requires forall i :: 0 <= i < |results| && results[i].link.Some? ==> Survives(results[i].link.value)
    ensures DownloadMp3.ValidLinks(TextFile.TextLines(TextFile.Render(YoutubeSearch.FoundLinks(results))))
         == YoutubeSearch.FoundLinks(results)
  {
    var links := YoutubeSearch.FoundLinks(results);
    YoutubeSearch.FoundLinksComplete(results);
    forall i | 0 <= i < |links|
      ensures Survives(links[i])
    {
      assert links[i] in links;
    }
    ReadBackSurvivors(links);
  }

  /** The search asked for one file gives back an id that survives being written, if it gives one. */
  predicate ReadableAnswer(e: YoutubeSearch.Extraction) {
    e.Extracted? && e.entries.Some? && |e.entries.value| > 0 && e.entries.value[0].id.Some?
    && e.entries.value[0].id.value != [] ==>
      var id := e.entries.value[0].id.value;
      TextFile.NoBreaks(id) && !IsSpace(id[|id| - 1])
  }

  /**
   * The pipeline: whatever the search answers, as long as the file names and
   * folder hold no line break and the video ids neither hold a line break
   * nor end in whitespace, the downloader reads back from either output file
   * exactly the links that were found, in the order of the files.
   */
  lemma SearchThenRead(folderAbs: string, files: seq<string>, engine: YoutubeSearch.SearchEngine)
    requires TextFile.NoBreaks(folderAbs)
    requires forall i :: 0 <= i < |files| ==> TextFile.NoBreaks(files[i])
    requires forall i :: 0 <= i < |files| ==>
      ReadableAnswer(engine(YoutubeSearch.SearchRequest(YoutubeSearch.CleanFilenameForSearch(files[i]),
                                                        YoutubeSearch.MaxResults)))
    ensures DownloadMp3.ValidLinks(TextFile.TextLines(TextFile.Render(YoutubeSearch.FullFileLines(folderAbs,
              |YoutubeSearch.FoundLinks(YoutubeSearch.Records(files, engine))|, |files|,
              YoutubeSearch.Records(files, engine))))) == YoutubeSearch.FoundLinks(YoutubeSearch.Records(files, engine))
    ensures DownloadMp3.ValidLinks(TextFile.TextLines(TextFile.Render(
              YoutubeSearch.FoundLinks(YoutubeSearch.Records(files, engine))))) == YoutubeSearch.FoundLinks(YoutubeSearch.Records(files, engine))
  {
    var results := YoutubeSearch.Records(files, engine);
    forall i | 0 <= i < |results| && results[i].link.Some?
      ensures Survives(results[i].link.value)
    {
      var query := YoutubeSearch.CleanFilenameForSearch(files[i]);
      var e := engine(YoutubeSearch.SearchRequest(query, YoutubeSearch.MaxResults));
      assert results[i] == YoutubeSearch.RecordFor(files[i], engine);
      var id := e.entries.value[0].id.value;
      assert results[i].link.value == YoutubeSearch.WatchPrefix + id;
      SearchLinkSurvives(id);
    }
    assert Writable(folderAbs, results);
    FullFileReadBack(folderAbs, |YoutubeSearch.FoundLinks(results)|, |files|, results);
    LinksOnlyReadBack(results);
  }

  // ---------------------------------------------------------------------------
  // Retrying the failed downloads

  /** Every link `read_links` returns survives being written again. */
  lemma ReadLinksSurvive(lines: seq<string>)
    requires forall i :: 0 <= i < |lines| ==> TextFile.NoBreaks(lines[i])
    ensures forall l :: l in DownloadMp3.ValidLinks(lines) ==> Survives(l)
  {
    var stripped := Seqs.MapSeq(Strip, lines);
    DownloadMp3.ValidLinksShape(lines);
    Seqs.FilterMultiset(DownloadMp3.LinkAccepted, stripped);
    forall l | l in DownloadMp3.ValidLinks(lines)
      ensures TextFile.NoBreaks(l)
    {
      assert l in multiset(DownloadMp3.ValidLinks(lines));
      assert l in stripped;
      var j :| 0 <= j < |stripped| && stripped[j] == l;
      StripNoBreaks(lines[j]);
    }
  }

  lemma StripNoBreaks(s: string)
    requires TextFile.NoBreaks(s)
    ensures TextFile.NoBreaks(Strip(s))
  {
    var l := Strip(s);
    forall k | 0 <= k < |l|
      ensures !TextFile.IsBreak(l[k])
    {
      assert l[k] == s[LeadingSpaces(s) + k];
    }
  }

  /**
   * `failed_downloads.txt`, given back to the downloader, is read as exactly
   * the links whose download failed, in order.
   */
  lemma RetryReadBack(text: string, folder: string, download: DownloadMp3.Downloader)
    ensures DownloadMp3.ValidLinks(TextFile.TextLines(TextFile.Render(
              DownloadMp3.FailedLinks(DownloadMp3.ValidLinks(TextFile.TextLines(text)), folder, download))))
         == DownloadMp3.FailedLinks(DownloadMp3.ValidLinks(TextFile.TextLines(text)), folder, download)
  {
    var links := DownloadMp3.ValidLinks(TextFile.TextLines(text));
    var failed := DownloadMp3.FailedLinks(links, folder, download);
    ReadLinksSurvive(TextFile.TextLines(text));
    DownloadMp3.FailedLinksShape(links, folder, download);
    forall i | 0 <= i < |failed|
      ensures Survives(failed[i])
    {
      assert failed[i] in failed;
    }
    ReadBackSurvivors(failed);
  }
}
