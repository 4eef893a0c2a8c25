/** The managed-block rewrite of a text file: every line from an opening
    marker line up to the next closing marker line is replaced by a generated
    body; the markers themselves are kept, everything else is copied. */
module ManagedBlock {
  import opened Strs

  datatype Markers = Markers(open: string, close: string)

  /** The line scanner, `inBlock` being whether an opening marker has been
      seen and its closing marker not yet. */
  function Scan(lines: seq<string>, m: Markers, body: seq<string>, inBlock: bool): seq<string>
    decreases |lines|
  {
    if |lines| == 0 then []
    else Emit(lines[0], m, body, inBlock) + Scan(lines[1..], m, body, NextInBlock(lines[0], m, inBlock))
  }

  /** What the scanner writes for one line: inside a block every line but
      the closing marker is dropped, an opening marker included; outside,
      an opening marker is followed by the body and any other line is
      copied. */
  function Emit(line: string, m: Markers, body: seq<string>, inBlock: bool): (r: seq<string>)
    ensures inBlock && line != m.close ==> r == []
    ensures !inBlock || line == m.close ==> |r| > 0 && r[0] == line
  {
    if inBlock then (if line == m.close then [line] else [])
    else if line == m.open then [line] + body
    else [line]
  }

  /** Whether the scanner is inside a block after the line. */
  function NextInBlock(line: string, m: Markers, inBlock: bool): (r: bool)
    ensures r <==> (if inBlock then line != m.close else line == m.open)
  {
    if inBlock then line != m.close else line == m.open
  }

  function Rewrite(lines: seq<string>, m: Markers, body: seq<string>): seq<string> {
    Scan(lines, m, body, false)
  }

  /** The loop of the script, one line at a time. */
  method RewriteLines(lines: seq<string>, m: Markers, body: seq<string>) returns (out: seq<string>)
    ensures out == Rewrite(lines, m, body)
  {
    out := [];
    var inBlock := false;
    var i := 0;
    while i < |lines|
      invariant 0 <= i <= |lines|
      invariant out + Scan(lines[i..], m, body, inBlock) == Rewrite(lines, m, body)
    {
      var line := lines[i];
      ScanAt(lines, i, m, body, inBlock);
      ghost var before, emitted, after := out, Emit(line, m, body, inBlock), NextInBlock(line, m, inBlock);
      if inBlock {
        if line == m.close {
          inBlock := false;
          out := out + [line];
        }
      } else if line == m.open {
        inBlock := true;
        out := out + [line] + body;
      } else {
        out := out + [line];
      }
      assert out == before + emitted && inBlock == after;
      AppendAssoc(before, emitted, Scan(lines[i + 1..], m, body, after));
      i := i + 1;
    }
    assert lines[i..] == [];
  }

  /** The scanner's step at line `i`. */
  lemma {:induction false} ScanAt(lines: seq<string>, i: int, m: Markers, body: seq<string>, inBlock: bool)
    requires 0 <= i < |lines|
    ensures Scan(lines[i..], m, body, inBlock) ==
      Emit(lines[i], m, body, inBlock) + Scan(lines[i + 1..], m, body, NextInBlock(lines[i], m, inBlock))
  {
    assert lines[i..][0] == lines[i] && lines[i..][1..] == lines[i + 1..];
  }

  lemma {:induction false} AppendAssoc(a: seq<string>, b: seq<string>, c: seq<string>)
    ensures (a + b) + c == a + (b + c)
  {
  }

  /** Lines before any opening marker are copied unchanged. */
  lemma {:induction false} ScanOutside(pre: seq<string>, rest: seq<string>, m: Markers, body: seq<string>)
    requires m.open !in pre
    ensures Scan(pre + rest, m, body, false) == pre + Scan(rest, m, body, false)
    decreases |pre|
  {
    if |pre| == 0 {
      assert pre + rest == rest;
    } else {
      assert (pre + rest)[0] == pre[0];
      assert (pre + rest)[1..] == pre[1..] + rest;
      ScanOutside(pre[1..], rest, m, body);
    }
  }

  /** Lines inside a block up to the closing marker are dropped. */
  lemma {:induction false} ScanInside(mid: seq<string>, rest: seq<string>, m: Markers, body: seq<string>)
    requires m.close !in mid
    ensures Scan(mid + rest, m, body, true) == Scan(rest, m, body, true)
    decreases |mid|
  {
    if |mid| == 0 {
      assert mid + rest == rest;
    } else {
      assert (mid + rest)[0] == mid[0];
      assert (mid + rest)[1..] == mid[1..] + rest;
      ScanInside(mid[1..], rest, m, body);
    }
  }

  /** A file without an opening marker is left as it is. */
  lemma {:induction false} RewriteWithoutBlock(lines: seq<string>, m: Markers, body: seq<string>)
    requires m.open !in lines
    ensures Rewrite(lines, m, body) == lines
  {
    ScanOutside(lines, [], m, body);
    assert lines + [] == lines;
  }

  /** A terminated block is replaced by the body, markers kept, and the
      scanner continues after it. */
  lemma {:induction false} RewriteBlock(pre: seq<string>, mid: seq<string>, post: seq<string>, m: Markers, body: seq<string>)
    requires m.open !in pre && m.close !in mid
    ensures Rewrite(pre + [m.open] + mid + [m.close] + post, m, body) ==
      pre + [m.open] + body + [m.close] + Rewrite(post, m, body)
  {
    var rest := mid + [m.close] + post;
    var tail := Rewrite(post, m, body);
    assert rest == mid + ([m.close] + post);
    calc {
      Rewrite(pre + [m.open] + mid + [m.close] + post, m, body);
      { assert pre + [m.open] + mid + [m.close] + post == pre + ([m.open] + rest); }
      Scan(pre + ([m.open] + rest), m, body, false);
      { ScanOutside(pre, [m.open] + rest, m, body); }
      pre + Scan([m.open] + rest, m, body, false);
      { ScanCons(m.open, rest, m, body, false); }
      pre + ([m.open] + body + Scan(rest, m, body, true));
      { ScanInside(mid, [m.close] + post, m, body); }
      pre + ([m.open] + body + Scan([m.close] + post, m, body, true));
      { ScanCons(m.close, post, m, body, true); }
      pre + ([m.open] + body + ([m.close] + tail));
      pre + [m.open] + body + [m.close] + tail;
    }
  }

  /** The scanner's step at the first line. */
  lemma {:induction false} ScanCons(line: string, rest: seq<string>, m: Markers, body: seq<string>, inBlock: bool)
    ensures Scan([line] + rest, m, body, inBlock) ==
      Emit(line, m, body, inBlock) + Scan(rest, m, body, NextInBlock(line, m, inBlock))
  {
    assert ([line] + rest)[0] == line && ([line] + rest)[1..] == rest;
  }


  /** A block that is never closed swallows every following line. */
  lemma {:induction false} RewriteUnterminated(pre: seq<string>, mid: seq<string>, m: Markers, body: seq<string>)
    requires m.open !in pre && m.close !in mid
    ensures Rewrite(pre + [m.open] + mid, m, body) == pre + [m.open] + body
  {
    assert pre + [m.open] + mid == pre + ([m.open] + mid);
    ScanOutside(pre, [m.open] + mid, m, body);
    assert ([m.open] + mid)[1..] == mid;
    ScanInside(mid, [], m, body);
    assert mid + [] == mid;
  }

  /** Python's `str.splitlines()` for text whose only line break is `\n`:
      the pieces between newlines, without a trailing empty piece. */
  function SplitLines(text: string): (r: seq<string>)
    ensures forall i :: 0 <= i < |r| ==> '\n' !in r[i]
    ensures |text| > 0 && text[|text| - 1] == '\n' ==> Join(r, "\n") + "\n" == text
    ensures |text| > 0 && text[|text| - 1] != '\n' ==> Join(r, "\n") == text
  {
    if |text| == 0 then []
    else if text[|text| - 1] == '\n' then
      assert text == text[..|text| - 1] + "\n";
      JoinSplit(text[..|text| - 1], '\n');
      Split(text[..|text| - 1], '\n')
    else
      JoinSplit(text, '\n');
      Split(text, '\n')
  }

  /** Read, rewrite, and write back joined with newlines plus a final
      newline. */
  function RewriteText(text: string, m: Markers, body: seq<string>): string {
    Join(Rewrite(SplitLines(text), m, body), "\n") + "\n"
  }

  /** A newline-terminated file without an opening marker is written back
      byte for byte. */
  lemma {:induction false} RewriteTextWithoutBlock(text: string, m: Markers, body: seq<string>)
    requires |text| > 0 && text[|text| - 1] == '\n'
    requires m.open !in SplitLines(text)
    ensures RewriteText(text, m, body) == text
  {
    RewriteWithoutBlock(SplitLines(text), m, body);
  }

  /** The rewritten lines never contain a newline of their own when the body
      does not, so the written file splits back into them; when no line is
      left the file is a single empty line. */
  lemma {:induction false} RewriteTextLines(text: string, m: Markers, body: seq<string>)
    requires forall i :: 0 <= i < |body| ==> '\n' !in body[i]
    ensures |Rewrite(SplitLines(text), m, body)| > 0 ==>
      SplitLines(RewriteText(text, m, body)) == Rewrite(SplitLines(text), m, body)
    ensures |Rewrite(SplitLines(text), m, body)| == 0 ==> SplitLines(RewriteText(text, m, body)) == [""]
  {
    var out := Rewrite(SplitLines(text), m, body);
    ScanNoNewline(SplitLines(text), m, body, false);
    if |out| == 0 {
      var t := RewriteText(text, m, body);
      assert t == "\n";
      assert t[..|t| - 1] == "";
    } else {
      var t := RewriteText(text, m, body);
      assert t[..|t| - 1] == Join(out, "\n");
      SplitJoin(out, '\n');
    }
  }

  lemma {:induction false} ScanNoNewline(lines: seq<string>, m: Markers, body: seq<string>, inBlock: bool)
    requires forall i :: 0 <= i < |lines| ==> '\n' !in lines[i]
    requires forall i :: 0 <= i < |body| ==> '\n' !in body[i]
    ensures forall i :: 0 <= i < |Scan(lines, m, body, inBlock)| ==> '\n' !in Scan(lines, m, body, inBlock)[i]
    decreases |lines|
  {
    if |lines| > 0 {
      ScanNoNewline(lines[1..], m, body, !inBlock);
      ScanNoNewline(lines[1..], m, body, inBlock);
    }
  }
}
