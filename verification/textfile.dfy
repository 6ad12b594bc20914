/**
 * Text files as the scripts see them: written one `f.write(line + "\n")` at a
 * time, read back with `for line in f` in text mode, where `\n`, `\r` and
 * `\r\n` all end a line.
 */
module TextFile {

  predicate IsBreak(c: char) {
    c == '\n' || c == '\r'
  }

  predicate NoBreaks(s: string) {
    forall i :: 0 <= i < |s| ==> !IsBreak(s[i])
  }

  /** The index of the first line break in `t`, or `|t|` when there is none. */
  function FirstBreak(t: string): (k: nat)
    ensures k <= |t| && NoBreaks(t[..k])
    ensures k < |t| ==> IsBreak(t[k])
  {
    if t == [] || IsBreak(t[0]) then 0 else 1 + FirstBreak(t[1..])
  }

  /**
   * The lines `for line in f` yields, without their terminators (the only
   * reader, `read_links`, strips them anyway). A last line without a
   * terminator still counts; an empty file has no lines.
   */
  function TextLines(t: string): (ls: seq<string>)
    ensures forall i :: 0 <= i < |ls| ==> NoBreaks(ls[i])
    decreases |t|
  {
    if t == [] then []
    else
      var k := FirstBreak(t);
      if k == |t| then [t]
      else
        var next := if t[k] == '\r' && k + 1 < |t| && t[k + 1] == '\n' then k + 2 else k + 1;
        [t[..k]] + TextLines(t[next..])
  }

  /** The text written by `f.write(line + "\n")` for each line in order. */
  function Render(ls: seq<string>): (t: string)
    ensures |t| >= |ls|
  {
    if ls == [] then [] else ls[0] + "\n" + Render(ls[1..])
  }

  lemma {:induction false} FirstBreakAfter(l: string, rest: string)
    requires NoBreaks(l) && rest != [] && IsBreak(rest[0])
    ensures FirstBreak(l + rest) == |l|
    decreases |l|
  {
    if l != [] {
      var t := l + rest;
      assert t[0] == l[0] && !IsBreak(l[0]);
      assert t[1..] == l[1..] + rest;
      assert NoBreaks(l[1..]) by {
        forall i | 0 <= i < |l[1..]| ensures !IsBreak(l[1..][i]) {
          assert l[1..][i] == l[i + 1];
        }
      }
      FirstBreakAfter(l[1..], rest);
      assert FirstBreak(t) == 1 + FirstBreak(t[1..]);
    }
  }

  /** Reading back what was written gives the same lines, if none holds a line break. */
  lemma {:induction false} TextLinesOfRender(ls: seq<string>)
    requires forall i :: 0 <= i < |ls| ==> NoBreaks(ls[i])
    ensures TextLines(Render(ls)) == ls
  {
    if ls != [] {
      var t := Render(ls);
      var l := ls[0];
      var rest := Render(ls[1..]);
      assert t == l + ("\n" + rest);
      FirstBreakAfter(l, "\n" + rest);
      assert t[..|l|] == l;
      assert t[|l|] == '\n';
      assert t[|l| + 1..] == rest;
      TextLinesOfRender(ls[1..]);
    }
  }

  /** Writing two batches of lines one after the other. */
  lemma {:induction false} RenderAppend(a: seq<string>, b: seq<string>)
    ensures Render(a + b) == Render(a) + Render(b)
  {
    if a != [] {
      assert (a + b)[1..] == a[1..] + b;
      RenderAppend(a[1..], b);
    } else {
      assert a + b == b;
    }
  }

  /** Writing one more line. */
  lemma RenderSnoc(ls: seq<string>, line: string)
    ensures Render(ls + [line]) == Render(ls) + line + "\n"
  {
    RenderAppend(ls, [line]);
    assert Render([line]) == line + "\n" + Render([]);
  }

  lemma NoBreaksAppend(a: string, b: string)
    requires NoBreaks(a) && NoBreaks(b)
    ensures NoBreaks(a + b)
  {
    forall i | 0 <= i < |a + b|
      ensures !IsBreak((a + b)[i])
    {
      if i >= |a| {
        assert (a + b)[i] == b[i - |a|];
      }
    }
  }

  lemma LinesAppendNoBreaks(a: seq<string>, b: seq<string>)
    requires forall i :: 0 <= i < |a| ==> NoBreaks(a[i])
    requires forall i :: 0 <= i < |b| ==> NoBreaks(b[i])
    ensures forall i :: 0 <= i < |a + b| ==> NoBreaks((a + b)[i])
  {
    forall i | 0 <= i < |a + b|
      ensures NoBreaks((a + b)[i])
    {
      if i >= |a| {
        assert (a + b)[i] == b[i - |a|];
      }
    }
  }
}
