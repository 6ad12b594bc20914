/**
 * The YouTube link finder (youtube_search.py): turn the name of every MP4
 * file of a folder into a search query, take the first video YouTube finds
 * for it, and write two text files: a commented report and a file holding
 * only the links.
 *
 * The search itself is a parameter: a function from the search string given
 * to `extract_info` to what that call came to.
 */
module YoutubeSearch {
  import opened Wrappers
  import opened Text
  import Paths
  import Sorting
  import Seqs
  import TextFile

  // ---------------------------------------------------------------------------
  // Query cleaning

  /** The characters of the class `[_\-\.\(\)\[\]]`. */
  predicate IsSeparator(c: char) {
    c == '_' || c == '-' || c == '.' || c == '(' || c == ')' || c == '[' || c == ']'
  }

  /** What a query is made of besides the spaces between words. */
  predicate IsWordChar(c: char) {
    !IsSpace(c) && !IsSeparator(c)
  }

  /** `s.encode('ascii', 'ignore').decode('ascii')`: every character from 128 on is dropped. */
  function AsciiOnly(s: string): string {
    Seqs.Filter(IsAscii, s)
  }

  /**
   * `clean_filename_for_search`: the stem of the last path component, without
   * its non-ASCII characters, each run of separators replaced by a space, each
   * run of whitespace replaced by a space, and stripped.
   */
  function CleanFilenameForSearch(filename: string): string {
    var stem := Paths.Stem(Paths.BaseName(filename));
    var ascii := AsciiOnly(stem);
    var separated := SubRuns(ascii, IsSeparator);
    Strip(SubRuns(separated, IsSpace))
  }

  /**
   * The shape of a query: ASCII only, no separator, no whitespace but single
   * spaces between words, none at either end.
   */
  predicate IsCleanQuery(q: string) {
    && (forall i :: 0 <= i < |q| ==> IsAscii(q[i]) && !IsSeparator(q[i]))
    && (forall i :: 0 <= i < |q| ==> IsSpace(q[i]) ==> q[i] == ' ')
    && (forall i :: 0 <= i < |q| - 1 && q[i] == ' ' ==> q[i + 1] != ' ')
    && (q != [] ==> q[0] != ' ' && q[|q| - 1] != ' ')
  }

  /** Every query has the clean shape, and no `/` is left in it. */
  lemma CleanIsClean(filename: string)
    ensures IsCleanQuery(CleanFilenameForSearch(filename))
    ensures '/' !in CleanFilenameForSearch(filename)
  {
    CleanHasNoSlash(filename);
    var ascii := AsciiOnly(Paths.Stem(Paths.BaseName(filename)));
    var separated := SubRuns(ascii, IsSeparator);
    var collapsed := SubRuns(separated, IsSpace);
    var q := Strip(collapsed);
    SeparatedShape(ascii);
    CollapsedShape(separated);
    StrippedShape(collapsed);
  }

  /** Stripping what the whitespace pass left gives the clean shape. */
  lemma StrippedShape(collapsed: string)
    requires forall i :: 0 <= i < |collapsed| ==>
      collapsed[i] == ' ' || (IsAscii(collapsed[i]) && IsWordChar(collapsed[i]))
    requires forall i :: 0 <= i < |collapsed| - 1 && collapsed[i] == ' ' ==> collapsed[i + 1] != ' '
    ensures IsCleanQuery(Strip(collapsed))
  {
    var q := Strip(collapsed);
    var a := LeadingSpaces(collapsed);
    assert forall i :: 0 <= i < |q| ==> q[i] == collapsed[a + i];
    assert forall i :: 0 <= i < |q| ==> q[i] == ' ' || (IsAscii(q[i]) && IsWordChar(q[i]));
  }

  /**
   * A query keeps, in order, every ASCII character of the stem that is
   * neither whitespace nor a separator, and has no other such character.
   */
  lemma CleanKeepsWords(filename: string)
    ensures Seqs.Filter(IsWordChar, CleanFilenameForSearch(filename))
         == Seqs.Filter(IsWordChar, AsciiOnly(Paths.Stem(Paths.BaseName(filename))))
  {
    var ascii := AsciiOnly(Paths.Stem(Paths.BaseName(filename)));
    var separated := SubRuns(ascii, IsSeparator);
    SubRunsKeeps(ascii, IsSeparator, IsWordChar);
    SubRunsKeeps(separated, IsSpace, IsWordChar);
    StripKeeps(SubRuns(separated, IsSpace), IsWordChar);
  }

  /** The query comes from the last path component, which holds no `/`. */
  lemma CleanHasNoSlash(filename: string)
    ensures '/' !in CleanFilenameForSearch(filename)
  {
    var base := Paths.BaseName(filename);
    var stem := Paths.Stem(base);
    CleanKeepsWords(filename);
    assert forall i :: 0 <= i < |stem| ==> stem[i] == base[i];
    SlashNotKept(CleanFilenameForSearch(filename), stem);
  }

  /** A string whose word characters are those of a stem without `/` holds no `/`. */
  lemma SlashNotKept(q: string, stem: string)
    requires forall i :: 0 <= i < |stem| ==> stem[i] != '/'
    requires Seqs.Filter(IsWordChar, q) == Seqs.Filter(IsWordChar, AsciiOnly(stem))
    ensures '/' !in q
  {
    Seqs.FilterMultiset(IsWordChar, q);
    Seqs.FilterMultiset(IsWordChar, AsciiOnly(stem));
    Seqs.FilterMultiset(IsAscii, stem);
    assert '/' !in stem;
    assert IsWordChar('/') && IsAscii('/');
  }

  /** After the separator pass: spaces, and ASCII characters that are not separators. */
  lemma SeparatedShape(ascii: string)
    requires forall i :: 0 <= i < |ascii| ==> IsAscii(ascii[i])
    ensures forall i :: 0 <= i < |SubRuns(ascii, IsSeparator)| ==>
      SubRuns(ascii, IsSeparator)[i] == ' '
      || (IsAscii(SubRuns(ascii, IsSeparator)[i]) && !IsSeparator(SubRuns(ascii, IsSeparator)[i]))
  {
    SubRunsShape(ascii, IsSeparator);
    var r := SubRuns(ascii, IsSeparator);
    forall i | 0 <= i < |r| && r[i] != ' '
      ensures IsAscii(r[i])
    {
      var j :| 0 <= j < |ascii| && ascii[j] == r[i];
    }
  }

  /** After the whitespace pass: lone spaces between ASCII word characters. */
  lemma CollapsedShape(s: string)
    requires forall i :: 0 <= i < |s| ==> s[i] == ' ' || (IsAscii(s[i]) && !IsSeparator(s[i]))
    ensures forall i :: 0 <= i < |SubRuns(s, IsSpace)| ==>
      SubRuns(s, IsSpace)[i] == ' ' || (IsAscii(SubRuns(s, IsSpace)[i]) && IsWordChar(SubRuns(s, IsSpace)[i]))
    ensures forall i :: 0 <= i < |SubRuns(s, IsSpace)| - 1 && SubRuns(s, IsSpace)[i] == ' ' ==>
      SubRuns(s, IsSpace)[i + 1] != ' '
  {
    SubRunsShape(s, IsSpace);
    var r := SubRuns(s, IsSpace);
    forall i | 0 <= i < |r| && r[i] != ' '
      ensures IsAscii(r[i]) && IsWordChar(r[i])
    {
      var j :| 0 <= j < |s| && s[j] == r[i];
    }
  }

  /**
   * A word of a file name: ASCII characters that are neither whitespace,
   * separators nor `/`.
   */
  predicate IsWord(w: string) {
    w != [] && forall i :: 0 <= i < |w| ==> IsAscii(w[i]) && IsWordChar(w[i]) && w[i] != '/'
  }

  /**
   * A name such as `My_Video (2023).mp4` gives the query `My Video 2023`:
   * the underscore, the parentheses and the extension go, and the words stay
   * apart by one space each.
   */
  lemma CleanTitleYear(w1: string, w2: string, w3: string)
    requires IsWord(w1) && IsWord(w2) && IsWord(w3)
    ensures CleanFilenameForSearch(w1 + "_" + w2 + " (" + w3 + ").mp4") == w1 + " " + w2 + " " + w3
  {
    var stem := w1 + "_" + (w2 + " ") + "(" + w3 + ")";
    TitleYearRegrouped(w1, w2, w3);
    PlainTitleYear(w1, w2, w3);
    Paths.StemOfSuffixed(stem, ".mp4");
    AsciiTitleYear(w1, w2, w3);
    SeparatorPass(w1, w2, w3);
    SpacePass(w1, w2, w3);
    TrailingSpaceStripped(w1 + " " + w2 + " " + w3);
  }

  lemma TitleYearRegrouped(w1: string, w2: string, w3: string)
    ensures w1 + "_" + w2 + " (" + w3 + ").mp4" == w1 + "_" + (w2 + " ") + "(" + w3 + ")" + ".mp4"
    ensures w1 + " " + (w2 + " ") + " " + w3 + " " == w1 + " " + w2 + "  " + w3 + " "
  {
  }

  lemma PlainTitleYear(w1: string, w2: string, w3: string)
    requires IsWord(w1) && IsWord(w2) && IsWord(w3)
    ensures var name := w1 + "_" + (w2 + " ") + "(" + w3 + ")" + ".mp4";
      Paths.BaseName(name) == name
  {
    var slash := c => c == '/';
    NoneInAppend(w2, " ", slash);
    NoneInAppend(w1, "_", slash);
    NoneInAppend(w1 + "_", w2 + " ", slash);
    NoneInAppend(w1 + "_" + (w2 + " "), "(", slash);
    NoneInAppend(w1 + "_" + (w2 + " ") + "(", w3, slash);
    NoneInAppend(w1 + "_" + (w2 + " ") + "(" + w3, ")", slash);
    NoneInAppend(w1 + "_" + (w2 + " ") + "(" + w3 + ")", ".mp4", slash);
  }

  lemma AsciiTitleYear(w1: string, w2: string, w3: string)
    requires IsWord(w1) && IsWord(w2) && IsWord(w3)
    ensures AsciiOnly(w1 + "_" + (w2 + " ") + "(" + w3 + ")") == w1 + "_" + (w2 + " ") + "(" + w3 + ")"
  {
    var notAscii := c => !IsAscii(c);
    NoneInAppend(w2, " ", notAscii);
    NoneInAppend(w1, "_", notAscii);
    NoneInAppend(w1 + "_", w2 + " ", notAscii);
    NoneInAppend(w1 + "_" + (w2 + " "), "(", notAscii);
    NoneInAppend(w1 + "_" + (w2 + " ") + "(", w3, notAscii);
    NoneInAppend(w1 + "_" + (w2 + " ") + "(" + w3, ")", notAscii);
    Seqs.FilterAll(IsAscii, w1 + "_" + (w2 + " ") + "(" + w3 + ")");
  }

  lemma SeparatorPass(w1: string, w2: string, w3: string)
    requires IsWord(w1) && IsWord(w2) && IsWord(w3)
    ensures SubRuns(w1 + "_" + (w2 + " ") + "(" + w3 + ")", IsSeparator) == w1 + " " + (w2 + " ") + " " + w3 + " "
  {
    var P := IsSeparator;
    NoneInAppend(w2, " ", P);
    SubRunsAppendPlain([], w1, P);
    assert [] + w1 == w1;
    SubRunsAppendClass(w1, "_", P);
    SubRunsAppendPlain(w1 + "_", w2 + " ", P);
    SubRunsAppendClass(w1 + "_" + (w2 + " "), "(", P);
    SubRunsAppendPlain(w1 + "_" + (w2 + " ") + "(", w3, P);
    SubRunsAppendClass(w1 + "_" + (w2 + " ") + "(" + w3, ")", P);
  }

  lemma SpacePass(w1: string, w2: string, w3: string)
    requires IsWord(w1) && IsWord(w2) && IsWord(w3)
    ensures SubRuns(w1 + " " + w2 + "  " + w3 + " ", IsSpace) == w1 + " " + w2 + " " + w3 + " "
  {
    var P := IsSpace;
    SubRunsAppendPlain([], w1, P);
    assert [] + w1 == w1;
    SubRunsAppendClass(w1, " ", P);
    SubRunsAppendPlain(w1 + " ", w2, P);
    SubRunsAppendClass(w1 + " " + w2, "  ", P);
    SubRunsAppendPlain(w1 + " " + w2 + "  ", w3, P);
    SubRunsAppendClass(w1 + " " + w2 + "  " + w3, " ", P);
  }

  lemma TrailingSpaceStripped(x: string)
    requires x != [] && !IsSpace(x[0]) && !IsSpace(x[|x| - 1])
    ensures Strip(x + " ") == x
  {
    var s := x + " ";
    var r := Strip(s);
    assert LeadingSpaces(s) == 0;
    assert s[|x|] == ' ' && s[|x| - 1] == x[|x| - 1];
    assert |r| == |x|;
    assert s[..|x|] == x;
  }

  /**
   * Cleaning leaves a string alone exactly when it already has the clean
   * shape and is a single path component.
   */
  lemma CleanFixedPoints(q: string)
    ensures CleanFilenameForSearch(q) == q <==> IsCleanQuery(q) && '/' !in q
  {
    if IsCleanQuery(q) && '/' !in q {
      assert Paths.BaseName(q) == q;
      Paths.StemOfDotless(q);
      Seqs.FilterAll(IsAscii, q);
      SubRunsFixed(q, IsSeparator);
      SubRunsFixed(q, IsSpace);
      StripOfStripped(q);
    } else {
      CleanIsClean(q);
    }
  }

  /** Cleaning a query again changes nothing. */
  lemma CleanIdempotent(filename: string)
    ensures CleanFilenameForSearch(CleanFilenameForSearch(filename)) == CleanFilenameForSearch(filename)
  {
    CleanIsClean(filename);
    CleanFixedPoints(CleanFilenameForSearch(filename));
  }

  // ---------------------------------------------------------------------------
  // One search

  /** One entry of the result; `get('id')` is `None` when the entry has no id. */
  datatype Entry = Entry(id: Option<string>)

  /**
   * What `extract_info` comes to: an empty result, a result whose `entries`
   * may be missing, or an exception (from the search or from reading its
   * result).
   */
  datatype Extraction = NoResult | Extracted(entries: Option<seq<Entry>>) | SearchError(message: string)

  type SearchEngine = string -> Extraction

  const WatchPrefix: string := "https://www.youtube.com/watch? v="
  const MaxResults: int := 1

  /** The search string `ytsearch<max_results>:<query>`. */
  function SearchRequest(query: string, maxResults: int): string {
    "ytsearch" + IntToString(maxResults) + ":" + query
  }

  /** The search string holds the number of results, then the query, whole. */
  lemma SearchRequestReading(query: string, maxResults: int)
    ensures var r := SearchRequest(query, maxResults);
      var k := IndexOf(r, ':');
      && StartsWith(r, "ytsearch") && 8 <= k < |r|
      && ((r[8] == '-' && AllDigits(r[9..k])) || AllDigits(r[8..k]))
      && DecimalValue(r[8..k]) == maxResults
      && r[k + 1..] == query
  {
    var n := IntToString(maxResults);
    var head := "ytsearch" + n;
    var r := SearchRequest(query, maxResults);
    IntToStringRoundTrip(maxResults);
    HeadHasNoColon(n);
    assert r == head + (":" + query);
    IndexOfAppend(head, ":" + query, ':');
    assert IndexOf(r, ':') == |head|;
    assert r[8..|head|] == n;
    assert r[|head| + 1..] == query;
    assert r[..8] == "ytsearch";
  }

  lemma HeadHasNoColon(n: string)
    requires (n != [] && n[0] == '-' && AllDigits(n[1..])) || AllDigits(n)
    ensures forall i :: 0 <= i < |"ytsearch" + n| ==> ("ytsearch" + n)[i] != ':'
  {
    var head := "ytsearch" + n;
    forall i | 0 <= i < |head|
      ensures head[i] != ':'
    {
      if i >= 8 {
        assert head[i] == n[i - 8];
        if i > 8 || !(n[0] == '-') {
          if n != [] && n[0] == '-' {
            assert n[i - 8] == n[1..][i - 9];
          }
        }
      }
    }
  }

  /**
   * `search_youtube`: the watch link of the first entry when the result has
   * entries and the first one has a non-empty id; `None` otherwise, and when
   * the search raised.
   */
  function SearchYoutube(query: string, maxResults: int, engine: SearchEngine): (link: Option<string>)
    ensures var e := engine(SearchRequest(query, maxResults));
      link.Some? <==>
        e.Extracted? && e.entries.Some? && |e.entries.value| > 0
        && e.entries.value[0].id.Some? && e.entries.value[0].id.value != ""
    ensures link.Some? ==>
      var e := engine(SearchRequest(query, maxResults));
      StartsWith(link.value, WatchPrefix) && link.value[|WatchPrefix|..] == e.entries.value[0].id.value
  {
    match engine(SearchRequest(query, maxResults))
    case Extracted(Some(entries)) =>
      if |entries| > 0 && entries[0].id.Some? && entries[0].id.value != "" then
        Some(WatchPrefix + entries[0].id.value)
      else None
    case _ => None
  }

  /** Every link built contains `youtube.com/watch`. */
  lemma WatchLinkContains(id: string)
    ensures Contains(WatchPrefix + id, "youtube.com/watch")
  {
    assert WatchPrefix + id == "https://www." + "youtube.com/watch" + ("? v=" + id);
    ContainsMiddle("https://www.", "youtube.com/watch", "? v=" + id);
  }

  // ---------------------------------------------------------------------------
  // Enumeration

  /**
   * `sorted(glob("*.mp4") + glob("*.MP4"))`: every entry ending in `.mp4` or
   * `.MP4`, as often as the listing holds it, in ascending order.
   */
  function GetMp4Files(listing: seq<string>): (r: seq<string>)
    ensures Sorting.Sorted(r)
    ensures forall x :: multiset(r)[x] == (if Paths.IsMp4Name(x) then multiset(listing)[x] else 0)
  {
    var lower := Paths.Glob(listing, ".mp4");
    var upper := Paths.Glob(listing, ".MP4");
    assert forall x :: multiset(lower + upper)[x] == multiset(lower)[x] + multiset(upper)[x];
    Sorting.Sort(lower + upper)
  }

  // ---------------------------------------------------------------------------
  // The search loop

  /** One entry of `results`. */
  datatype SearchRecord = SearchRecord(filename: string, query: string, link: Option<string>)

  function RecordFor(filename: string, engine: SearchEngine): SearchRecord {
    var query := CleanFilenameForSearch(filename);
    SearchRecord(filename, query, SearchYoutube(query, MaxResults, engine))
  }

  /** The record of every file, in file order. */
  function Records(files: seq<string>, engine: SearchEngine): seq<SearchRecord> {
    Seqs.MapSeq(f => RecordFor(f, engine), files)
  }

  /** The links that were found, in order. */
  function FoundLinks(results: seq<SearchRecord>): (links: seq<string>)
    ensures |links| <= |results|
  {
    if results == [] then []
    else
      var last := results[|results| - 1];
      FoundLinks(results[..|results| - 1]) + (if last.link.Some? then [last.link.value] else [])
  }

  lemma {:induction false} FoundLinksAppend(a: seq<SearchRecord>, b: seq<SearchRecord>)
    ensures FoundLinks(a + b) == FoundLinks(a) + FoundLinks(b)
    decreases |b|
  {
    if b == [] {
      assert a + b == a;
    } else {
      var n := |b| - 1;
      assert (a + b)[..|a + b| - 1] == a + b[..n];
      FoundLinksAppend(a, b[..n]);
    }
  }

  /** Each found link is the link of some record, and every record's link is found. */
  lemma {:induction false} FoundLinksComplete(results: seq<SearchRecord>)
    ensures forall l :: l in FoundLinks(results) <==> exists i :: 0 <= i < |results| && results[i].link == Some(l)
  {
    if results != [] {
      var n := |results| - 1;
      FoundLinksComplete(results[..n]);
      forall l | (exists i :: 0 <= i < |results| && results[i].link == Some(l))
        ensures l in FoundLinks(results)
      {
        var i :| 0 <= i < |results| && results[i].link == Some(l);
        if i < n {
          assert results[..n][i] == results[i];
        }
      }
      forall l | l in FoundLinks(results)
        ensures exists i :: 0 <= i < |results| && results[i].link == Some(l)
      {
        if l in FoundLinks(results[..n]) {
          var i :| 0 <= i < n && results[..n][i].link == Some(l);
          assert results[i].link == Some(l);
        } else {
          assert results[n].link == Some(l);
        }
      }
    }
  }

  /**
   * The main loop: one record per file, in file order; `found` counts the
   * links found and `notFound` the rest.
   */
  method SearchAll(files: seq<string>, engine: SearchEngine)
    returns (results: seq<SearchRecord>, found: nat, notFound: nat)
    ensures results == Records(files, engine)
    ensures found == |FoundLinks(results)| && found + notFound == |files|
  {
    results, found, notFound := [], 0, 0;
    var i := 0;
    while i < |files|
      invariant 0 <= i <= |files|
      invariant results == Records(files[..i], engine)
      invariant found == |FoundLinks(results)| && found + notFound == i
    {
      var filename := files[i];
      var query := CleanFilenameForSearch(filename);
      var link := SearchYoutube(query, MaxResults, engine);
      var record := SearchRecord(filename, query, link);
      assert record == RecordFor(files[i], engine);
      RecordsSnoc(files, i, engine);
      FoundLinksSnoc(results, record);
      if link.Some? {
        found := found + 1;
      } else {
        notFound := notFound + 1;
      }
      results := results + [record];
      i := i + 1;
    }
    assert files[..i] == files;
  }

  lemma RecordsSnoc(files: seq<string>, i: nat, engine: SearchEngine)
    requires i < |files|
    ensures Records(files[..i + 1], engine) == Records(files[..i], engine) + [RecordFor(files[i], engine)]
  {
    assert files[..i + 1][..i] == files[..i];
  }

  lemma FoundLinksSnoc(results: seq<SearchRecord>, r: SearchRecord)
    ensures FoundLinks(results + [r]) == FoundLinks(results) + (if r.link.Some? then [r.link.value] else [])
  {
    assert (results + [r])[..|results|] == results;
  }

  // ---------------------------------------------------------------------------
  // The two output files

  /** How many `=` follow the `#` of the report's fourth line. */
  const RuleWidth: nat := 58

  /** The third line of the report: how many links were found, out of how many files. */
  function TotalLine(found: nat, total: nat): string {
    "# Total: " + NatToString(found) + " trouvés / " + NatToString(total) + " fichiers"
  }

  /** The four comment lines and the blank line that open the report. */
  function HeaderLines(folderAbs: string, found: nat, total: nat): seq<string> {
    ["# Liens YouTube trouvés",
     "# Généré à partir de: " + folderAbs,
     TotalLine(found, total),
     "#" + Repeat('=', RuleWidth),
     ""]
  }

  /** The line of the report for one record: its link, or a comment naming the file. */
  function ResultLine(r: SearchRecord): string {
    if r.link.Some? then r.link.value else "# NON TROUVÉ: " + r.filename
  }

  /** The lines of the report. */
  function FullFileLines(folderAbs: string, found: nat, total: nat, results: seq<SearchRecord>): seq<string> {
    HeaderLines(folderAbs, found, total) + Seqs.MapSeq(ResultLine, results)
  }

  /** The text of the header: the four comment lines, then an empty line. */
  lemma HeaderText(folderAbs: string, found: nat, total: nat)
    ensures TextFile.Render(HeaderLines(folderAbs, found, total))
         == "# Liens YouTube trouvés\n"
          + "# Généré à partir de: " + folderAbs + "\n"
          + TotalLine(found, total) + "\n"
          + "#" + Repeat('=', RuleWidth) + "\n\n"
  {
    var title, source := "# Liens YouTube trouvés", "# Généré à partir de: ";
    var rule := Repeat('=', RuleWidth);
    RenderFive(title, source + folderAbs, TotalLine(found, total), "#" + rule, "");
    assert "# Liens YouTube trouvés\n" == title + "\n";
    HeaderRegrouped(title, source, folderAbs, TotalLine(found, total), "#", rule);
  }

  lemma HeaderRegrouped(a: string, g: string, f: string, c: string, h: string, r: string)
    ensures (a + "\n") + g + f + "\n" + c + "\n" + h + r + "\n\n"
         == a + "\n" + (g + f) + "\n" + c + "\n" + (h + r) + "\n" + "" + "\n"
  {
  }

  lemma RenderFive(a: string, b: string, c: string, d: string, e: string)
    ensures TextFile.Render([a, b, c, d, e]) == a + "\n" + b + "\n" + c + "\n" + d + "\n" + e + "\n"
  {
    assert [e][1..] == [];
    assert TextFile.Render([e]) == e + "\n";
    assert [d, e][1..] == [e];
    assert TextFile.Render([d, e]) == d + "\n" + e + "\n";
    assert [c, d, e][1..] == [d, e];
    assert TextFile.Render([c, d, e]) == c + "\n" + d + "\n" + e + "\n";
    assert [b, c, d, e][1..] == [c, d, e];
    assert TextFile.Render([b, c, d, e]) == b + "\n" + c + "\n" + d + "\n" + e + "\n";
    assert [a, b, c, d, e][1..] == [b, c, d, e];
  }

  /** Writing the report: the header, then one line per record. */
  method WriteFullFile(folderAbs: string, found: nat, total: nat, results: seq<SearchRecord>)
    returns (text: string)
    ensures text == TextFile.Render(FullFileLines(folderAbs, found, total, results))
  {
    ghost var header := HeaderLines(folderAbs, found, total);
    text := "# Liens YouTube trouvés\n";
    text := text + "# Généré à partir de: " + folderAbs + "\n";
    text := text + TotalLine(found, total) + "\n";
    text := text + "#" + Repeat('=', RuleWidth) + "\n\n";
    HeaderText(folderAbs, found, total);
    assert header + Seqs.MapSeq(ResultLine, results[..0]) == header;
    var i := 0;
    while i < |results|
      invariant 0 <= i <= |results|
      invariant text == TextFile.Render(header + Seqs.MapSeq(ResultLine, results[..i]))
    {
      var line;
      if results[i].link.Some? {
        line := results[i].link.value;
      } else {
        line := "# NON TROUVÉ: " + results[i].filename;
      }
      ResultLinesSnoc(header, results, i);
      TextFile.RenderSnoc(header + Seqs.MapSeq(ResultLine, results[..i]), line);
      text := text + line + "\n";
      i := i + 1;
    }
    assert results[..i] == results;
  }

  lemma ResultLinesSnoc(header: seq<string>, results: seq<SearchRecord>, i: nat)
    requires i < |results|
    ensures header + Seqs.MapSeq(ResultLine, results[..i + 1])
         == (header + Seqs.MapSeq(ResultLine, results[..i])) + [ResultLine(results[i])]
  {
    assert results[..i + 1][..i] == results[..i];
  }

  /** Writing the links-only file: one line per found link, in order. */
  method WriteLinksOnly(results: seq<SearchRecord>) returns (text: string)
    ensures text == TextFile.Render(FoundLinks(results))
  {
    text := "";
    var i := 0;
    while i < |results|
      invariant 0 <= i <= |results|
      invariant text == TextFile.Render(FoundLinks(results[..i]))
    {
      assert results[..i + 1] == results[..i] + [results[i]];
      FoundLinksSnoc(results[..i], results[i]);
      if results[i].link.Some? {
        TextFile.RenderSnoc(FoundLinks(results[..i]), results[i].link.value);
        text := text + results[i].link.value + "\n";
      } else {
        assert FoundLinks(results[..i + 1]) == FoundLinks(results[..i]);
      }
      i := i + 1;
    }
    assert results[..i] == results;
  }

  // ---------------------------------------------------------------------------
  // File names and the whole run

  const DefaultOutputFile: string := "youtube_links.txt"

  /** The second argument if there is one, else `youtube_links.txt`. */
  function OutputFileOf(args: seq<string>): string
    requires args != []
  {
    if |args| > 1 then args[1] else DefaultOutputFile
  }

  /** `output_file.replace('.txt', '_links_only.txt')`. */
  function LinksOnlyName(outputFile: string): string {
    ReplaceAll(outputFile, ".txt", "_links_only.txt")
  }

  /**
   * The links-only file is a second file exactly when the output name
   * contains `.txt`; otherwise it is the report's own name, and its writing
   * replaces the report.
   */
  lemma LinksOnlyNameDiffers(outputFile: string)
    ensures LinksOnlyName(outputFile) != outputFile <==> Contains(outputFile, ".txt")
  {
    ReplaceAllLength(outputFile, ".txt", "_links_only.txt");
    OccurrencesIffContains(outputFile, ".txt");
    if !Contains(outputFile, ".txt") {
      ReplaceAbsent(outputFile, ".txt", "_links_only.txt");
    }
  }

  /**
   * A name of the form `<base>.txt` with no other dot gets `<base>_links_only.txt`
   * (so the default `youtube_links.txt` gets `youtube_links_links_only.txt`).
   */
  lemma LinksOnlyNameOfTxt(base: string)
    requires forall i :: 0 <= i < |base| ==> base[i] != '.'
    ensures LinksOnlyName(base + ".txt") == base + "_links_only.txt"
  {
    ReplaceAfterPrefix(base, ".txt", ".txt", "_links_only.txt");
    var t := ".txt";
    assert t[..4] == t && t[4..] == [];
  }

  /** `replace` copies a prefix in which no occurrence starts. */
  lemma {:induction false} ReplaceAfterPrefix(a: string, b: string, p: string, q: string)
    requires |p| > 0
    requires forall i :: 0 <= i < |a| ==> a[i] != p[0]
    ensures ReplaceAll(a + b, p, q) == a + ReplaceAll(b, p, q)
    decreases |a|
  {
    if a == [] {
      assert a + b == b;
    } else {
      var s := a + b;
      assert s[0] == a[0] != p[0];
      assert s[1..] == a[1..] + b;
      ReplaceAfterPrefix(a[1..], b, p, q);
      if |s| >= |p| {
        assert s[..|p|] != p;
        assert ReplaceAll(s, p, q) == [s[0]] + ReplaceAll(s[1..], p, q);
      } else {
        assert ReplaceAll(s, p, q) == s;
        assert ReplaceAll(b, p, q) == b;
      }
    }
  }

  /**
   * The script: stop with 1 when `yt_dlp` cannot be imported (checked at
   * import time, before `main`); then `main` stops with 1 without an input
   * folder argument, when the folder does not exist or holds no MP4 file;
   * otherwise it searches every file in sorted order, writes the report and
   * then the links-only file, and ends normally. The file system is a map
   * from path to text.
   */
  method RunSearch(
    ytDlpImportable: bool, args: seq<string>, folderExists: bool, listing: seq<string>, folderAbs: string,
    engine: SearchEngine, fs: map<string, string>)
    returns (exitCode: int, fs': map<string, string>)
    ensures exitCode == 0 || exitCode == 1
    ensures exitCode == 1 <==> !ytDlpImportable || args == [] || !folderExists || GetMp4Files(listing) == []
    ensures exitCode == 1 ==> fs' == fs
    ensures exitCode == 0 ==>
      && args != []
      && var files := GetMp4Files(listing);
         var results := Records(files, engine);
         var out := OutputFileOf(args);
         fs' == fs[out := TextFile.Render(FullFileLines(folderAbs, |FoundLinks(results)|, |files|, results))]
                  [LinksOnlyName(out) := TextFile.Render(FoundLinks(results))]
  {
    if !ytDlpImportable {
      return 1, fs;
    }
    if |args| < 1 {
      return 1, fs;
    }
    var outputFile := if |args| > 1 then args[1] else DefaultOutputFile;
    if !folderExists {
      return 1, fs;
    }
    var files := GetMp4Files(listing);
    if |files| == 0 {
      return 1, fs;
    }
    fs' := SearchAndSave(files, outputFile, folderAbs, engine, fs);
    exitCode := 0;
  }

  /** Search every file, then write the report and the links-only file next to it. */
  method SearchAndSave(files: seq<string>, outputFile: string, folderAbs: string, engine: SearchEngine,
                       fs: map<string, string>)
    returns (fs': map<string, string>)
    ensures var results := Records(files, engine);
      fs' == fs[outputFile := TextFile.Render(FullFileLines(folderAbs, |FoundLinks(results)|, |files|, results))]
               [LinksOnlyName(outputFile) := TextFile.Render(FoundLinks(results))]
  {
    var results, found, notFound := SearchAll(files, engine);
    var full := WriteFullFile(folderAbs, found, |files|, results);
    fs' := fs[outputFile := full];
    var linksOnlyFile := LinksOnlyName(outputFile);
    var linksOnly := WriteLinksOnly(results);
    fs' := fs'[linksOnlyFile := linksOnly];
  }
}
