# audio_converter, modelled in Dafny

The repository holds three batch scripts that turn a folder of videos into an
MP3 collection:

- `audio_converter.py` converts every `.mp4`/`.MP4` file of a folder to MP3
  with ffmpeg. It runs sequentially or through a thread pool, counts
  successes and failures, and exits with 1 when any conversion failed.
- `youtube_search.py` turns the name of every MP4 file of a folder into a
  YouTube search query. It searches for each query and writes two files: a
  report (`youtube_links.txt` by default) with a commented header and one
  line per file, and a links-only file.
- `download_mp3.py` reads a links file, downloads the audio of each link as
  MP3 with yt-dlp, and saves the links that failed to `failed_downloads.txt`.

The two last scripts form a pipeline: the files the search writes are meant
to be given to the downloader, and the downloader's failed-links file can be
given back to it.

The model replaces every external program and service with a function
parameter from the request to what came back:

- ffmpeg: `AudioConverter.Ffmpeg`, from an argument vector to `Exited(code, stderr) | Raised(error)`.
- yt-dlp: `DownloadMp3.Downloader`, from an argument vector to `Completed(returnCode, stderr) | NotInstalled | Raised(error)`.
- the YouTube search: `YoutubeSearch.SearchEngine`, from the search string to an extraction result.

Directory listings are sequences of names. The file system written to is a
map from path to text. A text file is read back line by line with universal
newlines.

Modules:

- `Wrappers`: `Option` and `Result`.
- `Text`: Python string operations: `str.isspace`, `strip`, `in`, `replace`, `re.sub` of a character class with `+`, `str(int)`.
- `TextFile`: writing lines and reading them back.
- `Paths`: `pathlib` stem, suffix, name, `/` and `glob`.
- `Sorting`: `sorted` on strings.
- `Argv`: how a command-line tool reads an argument vector.
- `Seqs`: map, filter and subsequences.
- `AudioConverter`, `YoutubeSearch` and `DownloadMp3`: one module per script.
- `Pipeline`: the two scripts chained.

Three details are modelled as the code writes them:

- The short-link marker tested by `read_links` is `'youtu. be/'`, with a space, so real short links are rejected (`DownloadMp3.ShortLinkRejected`).
- The links built by the search are `https://www.youtube.com/watch? v=<id>`, also with a space. They still contain `youtube.com/watch`, so the downloader accepts them.
- In the downloader, error output made only of whitespace gives an empty message, not "Erreur inconnue" (`DownloadMp3.BlankErrorOutput`).

## Model

| member | source | states |
|---|---|---|
| AudioConverter.GetMp4Files | audio_converter.py:40-43 | the files are the listing's entries ending in `.mp4` or `.MP4`, each as often as the listing holds it; they are the `.mp4` glob followed by the `.MP4` glob, each in listing order; no other casing, no dedupe, no sorting |
| AudioConverter.Mp4Union | audio_converter.py:42 | the concatenation of the two globs holds exactly the MP4 entries, lower-case suffix first |
| Paths.Glob | audio_converter.py:42 | `glob("*<ext>")` keeps exactly the entries ending in the extension, with their multiplicity, case-sensitively, as an in-order selection of the listing |
| AudioConverter.OutputName | audio_converter.py:64 | the output name is the input's stem followed by `.mp3` (properties in `OutputNameReplacesSuffix`) |
| AudioConverter.OutputNameReplacesSuffix | audio_converter.py:64 | the output name has the input's stem and the suffix `.mp3` |
| Paths.StemAndSuffix | audio_converter.py:64 | stem and suffix split a name; the suffix is empty or a dot, at least one character and no other dot; a non-empty name has a non-empty stem |
| Paths.StemOfSuffixed | youtube_search.py:23 | a non-empty stem followed by a suffix has that stem back |
| Paths.StemOfDotless | youtube_search.py:23 | a name without a dot is its own stem |
| Paths.BaseNameOfJoin | audio_converter.py:86 | the name of `folder / name` is `name`, which is what the success message shows |
| AudioConverter.ConvertCommand | audio_converter.py:66-77 | the ffmpeg argument vector, element by element as the list is written (how ffmpeg reads it is in `ConvertCommandReading`) |
| AudioConverter.ConvertCommandReading | audio_converter.py:66-77 | the command is `ffmpeg` followed by, as ffmpeg reads it, `-i <input>`, `-vn`, `-acodec libmp3lame`, `-ab <bitrate>`, `-ar <rate>`, `-ac 2`, `-q:a 0`, `-y` and the output path as the last, positional, element; the rate string reads back as the sample rate |
| Argv.UnparseParse | audio_converter.py:66-77 | reading an argument vector loses nothing: writing the options back gives the same vector |
| Text.IntToStringRoundTrip | audio_converter.py:72 | `str(sample_rate)` reads back as the number, the sign included |
| AudioConverter.ConvertMp4ToMp3 | audio_converter.py:46-88 | a failed process gives `(False, name, "Erreur: " + stderr[:100])`: the message is `Erreur: ` followed by the first `min(len(stderr), 100)` characters of stderr; exit code 0 gives `(True, name, "→ " + output name)`; any other exception escapes |
| AudioConverter.CountKinds | audio_converter.py:158-181 | every report is exactly one of converted, not converted or raised |
| AudioConverter.CountPermutation | audio_converter.py:158 | counts of each kind do not depend on the order of the reports |
| AudioConverter.CrashCounted | audio_converter.py:158-159 | some report raised exactly when the count of raised reports is positive |
| AudioConverter.ReportsPermutation | audio_converter.py:148-158 | converting the files in another order gives the same reports in another order |
| AudioConverter.TalliedCrash | audio_converter.py:159 | a batch whose first raising report is at index i ends with that exception |
| AudioConverter.TalliedComplete | audio_converter.py:143-183 | a batch with no raising report returns total, successes and failures, which add up to the total |
| AudioConverter.ConvertSequential | audio_converter.py:166-181 | the sequential loop ends with the first exception, or returns `total == len(files)`, successes and failures counted over the reports, `success + failed == total` |
| AudioConverter.ConvertParallel | audio_converter.py:145-165 | the pool tallies the reports in completion order, which is any permutation of the files; it fails exactly when some file raises and otherwise returns the counts of the files in list order |
| AudioConverter.Reordered | audio_converter.py:158-165 | a tally taken in a permuted order ends with an exception exactly when some file raises, and otherwise equals the tally in file order |
| AudioConverter.SameCounts | audio_converter.py:145-165 | completion order changes none of the three counts |
| AudioConverter.SameCrashes | audio_converter.py:158-159 | completion order does not change whether some file raises |
| AudioConverter.ConvertBatch | audio_converter.py:111-183 | a missing or non-directory input stops with 1; otherwise an empty folder returns zero counts without converting, and the batch raises exactly when some conversion raises, or returns the tallied counts |
| AudioConverter.RunConverter | audio_converter.py:236-256 | the exit status is 0 exactly when ffmpeg is installed, the input is a folder, no conversion raises and none failed |
| YoutubeSearch.CleanFilenameForSearch | youtube_search.py:20-37 | the stem of the name's last path component, non-ASCII characters dropped, each run of `_ - . ( ) [ ]` and then each run of whitespace replaced by one space, stripped (properties in the rows below) |
| YoutubeSearch.CleanIsClean | youtube_search.py:20-37 | every query is ASCII only, with no `_ - . ( ) [ ]` and no `/`, with whitespace only as single spaces between words, and with no space at either end |
| YoutubeSearch.CleanHasNoSlash | youtube_search.py:23 | `Path(filename).stem` takes the last path component, so no `/` reaches the query |
| YoutubeSearch.CleanKeepsWords | youtube_search.py:20-37 | cleaning drops only whitespace and separators from the ASCII characters of the stem of the last path component: every other character stays, in order |
| Text.SubRunsShape | youtube_search.py:29-35 | `re.sub('[class]+', ' ', s)` leaves only spaces and characters of `s` outside the class, and no class character is followed by another class character |
| Text.SubRunsKeeps | youtube_search.py:29-35 | the substitution keeps every character outside the class and the space, in order |
| Text.SubRunsFixed | youtube_search.py:29-35 | a string whose class characters are single spaces between others is unchanged |
| Text.StripKeeps | youtube_search.py:35 | `strip` removes only whitespace |
| YoutubeSearch.CleanTitleYear | youtube_search.py:20-37 | a name of the form `<w1>_<w2> (<w3>).mp4`, such as `My_Video (2023).mp4`, gives `<w1> <w2> <w3>`, for words without whitespace, separators or `/` |
| YoutubeSearch.CleanFixedPoints | youtube_search.py:20-37 | cleaning leaves a string unchanged exactly when it already has the clean shape and holds no `/` |
| YoutubeSearch.CleanIdempotent | youtube_search.py:20-37 | cleaning a query again gives it back |
| YoutubeSearch.SearchRequestReading | youtube_search.py:53 | the search string is `ytsearch`, the decimal number of results, `:` and the whole query |
| YoutubeSearch.SearchYoutube | youtube_search.py:40-63 | a link is returned exactly when the extraction gave a non-empty entry list whose first entry has a non-empty id; the link is the watch prefix followed by that id; no result and any exception give none |
| YoutubeSearch.WatchLinkContains | youtube_search.py:59 | every watch link contains `youtube.com/watch`, despite the space in the prefix |
| YoutubeSearch.GetMp4Files | youtube_search.py:66-69 | the files are the `.mp4` and `.MP4` entries, each as often as listed, in ascending order |
| Sorting.Sort | youtube_search.py:69 | `sorted` gives an ascending permutation |
| Sorting.SortedUnique | youtube_search.py:69 | only one ascending arrangement of the files exists, so the order is fully determined |
| YoutubeSearch.Records | youtube_search.py:104-133 | one record per file, in file order, holding the file name, its cleaned query and the link its search returned |
| YoutubeSearch.FoundLinks | youtube_search.py:153-156 | the links of the records that have one, in record order (properties in `FoundLinksComplete` and `FoundLinksAppend`) |
| YoutubeSearch.FoundLinksComplete | youtube_search.py:115-122 | a link is in the found list exactly when some record holds it |
| YoutubeSearch.FoundLinksAppend | youtube_search.py:145-156 | the found links of two record lists are those of each, one after the other |
| YoutubeSearch.SearchAll | youtube_search.py:101-133 | one record per file, in file order, with the query and the link of its search; `found` is the number of links found and `found + not_found` the number of files |
| YoutubeSearch.HeaderLines | youtube_search.py:140-143 | the four comment lines and the empty line that open the report |
| YoutubeSearch.FullFileLines | youtube_search.py:139-149 | the report's lines: the header, then each record's link or `# NON TROUVÉ: <file name>` |
| YoutubeSearch.HeaderText | youtube_search.py:140-143 | the report opens with the title, the source folder, the total line, a rule of 58 `=` and an empty line |
| YoutubeSearch.WriteFullFile | youtube_search.py:139-149 | the report is the header lines followed by each record's link or `# NON TROUVÉ: <file name>`, one line each, in order |
| YoutubeSearch.WriteLinksOnly | youtube_search.py:153-156 | the links-only file holds the found links, one per line, in order |
| YoutubeSearch.LinksOnlyName | youtube_search.py:152 | `output_file.replace('.txt', '_links_only.txt')`, every non-overlapping occurrence from the left (properties in the two rows below) |
| YoutubeSearch.LinksOnlyNameDiffers | youtube_search.py:152 | the links-only name differs from the output name exactly when the latter contains `.txt`; otherwise the links-only file replaces the report |
| YoutubeSearch.LinksOnlyNameOfTxt | youtube_search.py:152 | `<base>.txt` with no other dot gives `<base>_links_only.txt` |
| Text.ReplaceAllLength | youtube_search.py:152 | `replace` changes the length by the number of non-overlapping occurrences times the length difference |
| YoutubeSearch.RunSearch | youtube_search.py:13-156 | exit 1, with no file written, exactly when `yt_dlp` cannot be imported, the folder argument is missing, the folder does not exist or it holds no MP4 file; otherwise the report is written, then the links-only file |
| YoutubeSearch.SearchAndSave | youtube_search.py:101-156 | after searching every file, the report holds the header and the result lines, and the links-only name then holds the found links; no other path changes |
| TextFile.TextLines | download_mp3.py:48-49 | the lines a text-mode file yields, under universal newlines, without their line ends; none holds a line break |
| TextFile.Render | youtube_search.py:145-149 | the text written by `write(line + "\n")` for each line in turn |
| TextFile.TextLinesOfRender | youtube_search.py:139-156 | lines written with `write(line + "\n")` read back as the same lines when none holds a line break |
| TextFile.RenderAppend | youtube_search.py:145-149 | writing two batches of lines writes their texts one after the other |
| DownloadMp3.DownloadCommand | download_mp3.py:15-24 | the yt-dlp argument vector, element by element as the list is written (how yt-dlp reads it is in `DownloadCommandReading`) |
| DownloadMp3.DownloadCommandReading | download_mp3.py:15-24 | the command is `yt-dlp` followed by, as yt-dlp reads it, `-f bestaudio`, `--extract-audio`, `--audio-format mp3`, `--audio-quality 0`, `-o <folder>/%(title)s.%(ext)s`, `--no-playlist`; the link is the last element and the one positional argument |
| DownloadMp3.DownloadMp3 | download_mp3.py:12-43 | success exactly on return code 0, with "OK"; another code gives the stripped stderr cut to 100 characters, or "Erreur inconnue" when stderr is empty; a missing program gives the install hint; any other exception gives its text |
| DownloadMp3.BlankErrorOutput | download_mp3.py:38 | whitespace-only stderr gives an empty failure message |
| DownloadMp3.ValidLinks | download_mp3.py:46-59 | each line stripped, then kept when non-empty, not starting with `#` and holding `youtube.com/watch` or `youtu. be/` (properties in the rows below) |
| DownloadMp3.ValidLinksShape | download_mp3.py:46-59 | every returned link is non-empty, not a comment, has one of the two markers and no surrounding whitespace; every line passing the test once stripped is returned; the links keep the order of the lines, at most one per line |
| DownloadMp3.ValidLinksAppend | download_mp3.py:51-57 | reading two blocks of lines gives the links of each, one after the other |
| DownloadMp3.ReadLinks | download_mp3.py:46-59 | the loop returns the accepted stripped lines of the file, in order |
| Text.StripIdempotent | download_mp3.py:52 | stripping twice is stripping once |
| Seqs.FilterIsSubsequence | download_mp3.py:51-57 | a filter keeps an in-order selection of its input |
| Seqs.FilterMultiset | download_mp3.py:51-57 | a filter keeps each passing element as often as it occurs and nothing else |
| DownloadMp3.ShortLinkRejected | download_mp3.py:56 | `https://youtu.be/<id>` is rejected for every id without whitespace or `/` |
| DownloadMp3.FailedLinks | download_mp3.py:99-111 | the links whose download fails, in link order |
| DownloadMp3.FailedLinksShape | download_mp3.py:99-111 | the failed links are an in-order selection of the links, holding exactly those whose download fails |
| DownloadMp3.FailedLinksExtremes | download_mp3.py:99-111 | when every download succeeds none is listed; when every one fails all are |
| DownloadMp3.DownloadAll | download_mp3.py:95-111 | `success + failed == len(links)`, `failed == len(failed_urls)` and `failed_urls` is the failed links in order |
| DownloadMp3.WriteFailedFile | download_mp3.py:128-131 | the failed-links file holds one failed link per line, in order |
| DownloadMp3.RunDownload | download_mp3.py:62-134 | exit 1, with no file written, exactly when the links-file argument is missing, the file does not exist or holds no valid link; otherwise exit 0 whatever failed, and `failed_downloads.txt` is written exactly when some download failed |
| Pipeline.ValidLinksFixed | download_mp3.py:46-59 | `read_links` keeps a line list unchanged exactly when every line is a stripped accepted link |
| Pipeline.ReadBackSurvivors | download_mp3.py:46-59 | lines that are stripped accepted links without line breaks are read back as written |
| Pipeline.CommentSkipped | download_mp3.py:54 | a line starting with `#` is never a link |
| Pipeline.SearchLinkSurvives | youtube_search.py:59 | a watch link whose id has no line break and does not end in whitespace is read back unchanged by `read_links` |
| Pipeline.FoundLinksAreWatchLinks | youtube_search.py:59 | every link the search finds starts with the watch prefix and contains `youtube.com/watch` |
| Pipeline.FullFileLineKinds | youtube_search.py:139-149 | every line of the report is blank, starts with `#`, or is a found link |
| Pipeline.HeaderSkipped | youtube_search.py:140-143 | the report's header has no line break and yields no link |
| Pipeline.ResultLinesRead | youtube_search.py:145-149 | the report's result lines are read back as exactly the found links, in order |
| Pipeline.FullFileReadBack | youtube_search.py:139-149 | `read_links` on the report gives exactly the found links, in file order |
| Pipeline.LinksOnlyReadBack | youtube_search.py:153-156 | `read_links` on the links-only file gives the same links |
| Pipeline.SearchThenRead | download_mp3.py:66 | for any search answers whose ids have no line break and no trailing whitespace, and folder and file names without line breaks, both files the search writes are read by the downloader as exactly the found links |
| Pipeline.ReadLinksSurvive | download_mp3.py:46-59 | every link the downloader reads survives being written again |
| Pipeline.RetryReadBack | download_mp3.py:128-131 | `failed_downloads.txt`, given back to the downloader, is read as exactly the failed links, in order |

## Left out

- Running ffmpeg and yt-dlp, and the `shutil.which` test: the processes are parameters, and ffmpeg's presence is a boolean. Whether `from yt_dlp import YoutubeDL` succeeds is a boolean too.
- The YouTube search through `YoutubeDL`: a parameter from the search string to the extraction result. Only the options that reach the search string are modelled; `quiet`, `no_warnings`, `extract_flat` and `default_search` are not.
- Threads: the pool's completion order is an arbitrary permutation of the files, given as a parameter.
- The pool size, `MAX_WORKERS = 50`, is not modelled: any completion order is allowed.
- Console output, emoji and `time.sleep(1)`.
- Files, folders and listings:
  - existence and directory tests are booleans;
  - listings are sequences of names;
  - `mkdir` is not modelled, and neither are the MP3 files ffmpeg and yt-dlp write.
- Only the text files the scripts write are modelled, as a map from path to text.
- `Path.absolute()` is a parameter.
- Paths.Glob: follows POSIX `pathlib`, where `glob` is case-sensitive. On Windows `glob` ignores case, so `*.mp4` and `*.MP4` both match every MP4 entry, `x.Mp4` included; that case is not modelled.
- AudioConverter.GetMp4Files: models the POSIX result. On Windows each MP4 file would be listed twice, so ffmpeg would run twice on it, writing the same output with `-y`, and the total would count it twice.
- YoutubeSearch.GetMp4Files: models the POSIX result. On Windows each MP4 file would be listed twice, so it would be searched twice, give two report lines and count twice.
- Sorting.Sort: compares by code point, as `sorted` does on POSIX paths. Windows paths compare ignoring case; that order is not modelled.
- Paths are joined as `folder + "/" + name`. `pathlib`'s normalisation is not modelled: `./x` is not shortened, and neither are repeated or trailing separators. Windows separators are not modelled either.
- argparse parsing of the converter's options is not modelled; its results, defaults `320k` and `44100` included, are parameters. `sys.argv` for the other two scripts is the list of arguments after the script name.
- Text encodings:
  - text is a sequence of characters;
  - UTF-8 decoding errors and `errors='replace'` are not modelled;
  - `str(e)` of an exception is its message parameter.
- A yt-dlp entry id that is not a string is not modelled: ids are strings.
- Cleaning a query, `str.isspace` and `\s` use the full set of characters Python counts as whitespace, not only ASCII.
- Reading a file treats `\n`, `\r` and `\r\n` as line ends, as Python's text mode does. Other characters that `str.splitlines` would split on do not end a line there, and are not modelled as line ends.
