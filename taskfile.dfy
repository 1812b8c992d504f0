/**
 * Command extraction from a task file: the first line that is not blank,
 * with its surrounding whitespace removed.
 */
module TaskFile {
  import opened Common
  import opened Text

  /** A line is blank when it is whitespace only, that is, when stripping it leaves nothing. */
  predicate Blank(line: string) {
    AllSpace(line)
  }

  /** Every line is blank. */
  predicate AllBlank(lines: seq<string>) {
    forall k | 0 <= k < |lines| :: Blank(lines[k])
  }

  /** Line k is the first line that is not blank. */
  predicate FirstNonblankAt(lines: seq<string>, k: int) {
    0 <= k < |lines| && !Blank(lines[k]) && forall j | 0 <= j < k :: Blank(lines[j])
  }

  /**
   * The search over the lines, stopping at the first one that is not blank.
   * It yields "" exactly when every line is blank, and otherwise the stripped
   * form of the first non-blank line.
   */
  function FirstNonblank(lines: seq<string>): (r: string)
    ensures r == [] <==> AllBlank(lines)
    ensures r != [] ==> exists k :: FirstNonblankAt(lines, k) && r == Strip(lines[k])
    ensures NoSurroundingSpace(r)
  {
    if lines == [] then []
    else
      var line := Strip(lines[0]);
      if line != [] then
        assert FirstNonblankAt(lines, 0);
        line
      else
        var r := FirstNonblank(lines[1..]);
        ShiftAllBlank(lines);
        if r != [] then
          var k :| FirstNonblankAt(lines[1..], k) && r == Strip(lines[1..][k]);
          ShiftFirstNonblank(lines, k);
          r
        else r
  }

  /** When the first line is blank, all lines are blank exactly when the remaining ones are. */
  lemma ShiftAllBlank(lines: seq<string>)
    requires lines != [] && Blank(lines[0])
    ensures AllBlank(lines) <==> AllBlank(lines[1..])
  {
    var tail := lines[1..];
    if AllBlank(tail) {
      forall k | 0 <= k < |lines| ensures Blank(lines[k]) {
        if k > 0 { assert lines[k] == tail[k - 1]; }
      }
    }
  }

  /** When the first line is blank, the first non-blank line of the rest is the first overall. */
  lemma ShiftFirstNonblank(lines: seq<string>, k: int)
    requires lines != [] && Blank(lines[0])
    requires FirstNonblankAt(lines[1..], k)
    ensures FirstNonblankAt(lines, k + 1) && lines[k + 1] == lines[1..][k]
  {
    var tail := lines[1..];
    forall j | 0 <= j < k + 1 ensures Blank(lines[j]) {
      if j > 0 { assert lines[j] == tail[j - 1]; }
    }
  }

  /**
   * The runner's command extraction. `content` is None when the file could not
   * be read; the result is "" then, as when every line is blank. A non-empty
   * result contains no line boundary and has no surrounding whitespace.
   */
  function ReadFirstNonemptyLine(content: Option<string>): (cmd: string)
    ensures content.None? ==> cmd == []
    ensures content.Some? ==> (cmd == [] <==> AllBlank(SplitLines(content.value)))
    ensures NoSurroundingSpace(cmd) && NoLineBreak(cmd)
  {
    match content
    case None => []
    case Some(text) =>
      var lines := SplitLines(text);
      var cmd := FirstNonblank(lines);
      assert NoLineBreak(cmd) by {
        if cmd != [] {
          var k :| FirstNonblankAt(lines, k) && cmd == Strip(lines[k]);
          StripNoLineBreak(lines[k]);
        }
      }
      cmd
  }

  /** A text that is only whitespace (line boundaries included) yields no command. */
  lemma BlankTextHasNoCommand(text: string)
    requires AllSpace(text)
    ensures ReadFirstNonemptyLine(Some(text)) == []
  {
    BlankTextLines(text);
  }

  /** Every line of a whitespace-only text is blank. */
  lemma {:induction false} BlankTextLines(text: string)
    requires AllSpace(text)
    ensures AllBlank(SplitLines(text))
    decreases |text|
  {
    var b := FirstBreak(text);
    var lines := SplitLines(text);
    if b == |text| {
      assert lines == [] || lines == [text];
    } else {
      var skip := b + BreakLength(text, b);
      var rest := text[skip..];
      assert lines == [text[..b]] + SplitLines(rest);
      AllSpaceSlice(text, 0, b);
      AllSpaceSlice(text, skip, |text|);
      assert text[skip..|text|] == rest;
      BlankTextLines(rest);
      assert lines[1..] == SplitLines(rest);
      ShiftAllBlank(lines);
    }
  }

  /** A single line with no surrounding whitespace is read back unchanged (or as "" if it is ""). */
  lemma CommandReadBack(cmd: string)
    requires NoLineBreak(cmd) && NoSurroundingSpace(cmd)
    ensures ReadFirstNonemptyLine(Some(cmd)) == cmd
  {
    if cmd != [] {
      SplitLinesSingle(cmd);
      StripKeepsTrimmed(cmd);
    }
  }
}
