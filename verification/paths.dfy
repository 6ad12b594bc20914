/**
 * The few `pathlib` operations the scripts rely on, over plain strings: `/`,
 * `.name`, `.stem`, `.suffix` and `glob("*<ext>")` over a directory listing.
 */
module Paths {
  import opened Text
  import Seqs

  /** `s.rfind(c)`: the last index holding `c`, or -1. */
  function LastIndexOf(s: string, c: char): (r: int)
    ensures -1 <= r < |s|
    ensures r >= 0 ==> s[r] == c
    ensures forall j :: r < j < |s| ==> s[j] != c
  {
    if s == [] then -1
    else if s[|s| - 1] == c then |s| - 1
    else LastIndexOf(s[..|s| - 1], c)
  }

  /** Whether `name` has a suffix: its last dot is neither its first nor its last character. */
  predicate HasSuffix(name: string) {
    var i := LastIndexOf(name, '.');
    0 < i < |name| - 1
  }

  /** `PurePath(name).stem`. */
  function Stem(name: string): (r: string)
    ensures |r| <= |name| && r == name[..|r|]
  {
    if HasSuffix(name) then name[..LastIndexOf(name, '.')] else name
  }

  /** `PurePath(name).suffix`. */
  function Suffix(name: string): (r: string)
  {
    if HasSuffix(name) then name[LastIndexOf(name, '.')..] else ""
  }

  /**
   * The stem and the suffix split the name: the suffix is empty or a dot
   * followed by at least one character and no further dot, and the stem
   * is never empty when the name is not.
   */
  lemma StemAndSuffix(name: string)
    ensures Stem(name) + Suffix(name) == name
    ensures name != [] ==> Stem(name) != []
    ensures Suffix(name) != [] ==>
      |Suffix(name)| >= 2 && Suffix(name)[0] == '.'
      && forall j :: 0 < j < |Suffix(name)| ==> Suffix(name)[j] != '.'
  {
    if HasSuffix(name) {
      var i := LastIndexOf(name, '.');
      assert name[..i] + name[i..] == name;
      forall j | 0 < j < |Suffix(name)|
        ensures Suffix(name)[j] != '.'
      {
        assert Suffix(name)[j] == name[i + j];
      }
    }
  }

  /** Putting a suffix after a non-empty stem gives a name with that stem. */
  lemma StemOfSuffixed(stem: string, suffix: string)
    requires stem != [] && |suffix| >= 2 && suffix[0] == '.'
    requires forall j :: 0 < j < |suffix| ==> suffix[j] != '.'
    ensures Stem(stem + suffix) == stem
  {
    var name := stem + suffix;
    assert name[|stem|] == '.';
    assert forall j :: |stem| < j < |name| ==> name[j] == suffix[j - |stem|];
    assert LastIndexOf(name, '.') == |stem|;
    assert name[..|stem|] == stem;
  }

  /** A name without a dot is its own stem. */
  lemma StemOfDotless(name: string)
    requires forall i :: 0 <= i < |name| ==> name[i] != '.'
    ensures Stem(name) == name
  {
    assert LastIndexOf(name, '.') == -1;
  }

  /** `str(Path(folder) / name)`. */
  function Join(folder: string, name: string): string {
    folder + "/" + name
  }

  /** `PurePath(path).name`: what follows the last `/`. */
  function BaseName(path: string): (r: string)
    ensures |r| <= |path| && r == path[|path| - |r|..]
    ensures forall i :: 0 <= i < |r| ==> r[i] != '/'
    ensures (forall i :: 0 <= i < |path| ==> path[i] != '/') ==> r == path
  {
    path[LastIndexOf(path, '/') + 1..]
  }

  /** Joining a name to a folder keeps the name as the path's last component. */
  lemma BaseNameOfJoin(folder: string, name: string)
    requires forall i :: 0 <= i < |name| ==> name[i] != '/'
    ensures BaseName(Join(folder, name)) == name
  {
    var p := Join(folder, name);
    var k := LastIndexOf(p, '/');
    assert p[|folder|] == '/';
    assert forall j :: |folder| < j < |p| ==> p[j] == name[j - |folder| - 1];
    assert k == |folder|;
    assert p[|folder| + 1..] == name;
  }

  /**
   * `folder.glob("*" + ext)` over the folder's entries in listing order
   * (case-sensitive, as on a POSIX file system; Windows, where it ignores
   * case, is not modelled; `*` also matches a leading dot).
   */
  function Glob(listing: seq<string>, ext: string): (r: seq<string>)
    ensures forall i :: 0 <= i < |r| ==> EndsWith(r[i], ext)
    ensures forall x :: multiset(r)[x] == if EndsWith(x, ext) then multiset(listing)[x] else 0
    ensures Seqs.IsSubsequence(r, listing)
  {
    var matches := entry => EndsWith(entry, ext);
    Seqs.FilterMultiset(matches, listing);
    Seqs.FilterIsSubsequence(matches, listing);
    Seqs.Filter(matches, listing)
  }

  /** An entry that `glob("*.mp4")` or `glob("*.MP4")` picks up. */
  predicate IsMp4Name(name: string) {
    EndsWith(name, ".mp4") || EndsWith(name, ".MP4")
  }
}
