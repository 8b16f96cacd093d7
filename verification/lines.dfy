/** How every multi-tag element assembles its output: the renderings of its
    present sub-tags, in the order its `_order` list declares, joined by a
    newline, or `""` when none is present. */
module Lines {

  import opened Wrappers
  import opened Text

  /** The lines joined by newlines; `""` when there are none. */
  function Compile(lines: seq<string>): (r: string)
    ensures |lines| == 0 ==> r == ""
    ensures |lines| > 0 ==> Count(r, '\n') == |lines| - 1 + CountAll(lines, '\n')
  {
    if |lines| > 0 then
      JoinCount(lines, '\n');
      Join(lines, "\n")
    else ""
  }

  /** The texts of the set slots, in slot order. */
  function Kept(slots: seq<Option<string>>): (ls: seq<string>)
    ensures |ls| <= |slots|
  {
    if |slots| == 0 then []
    else (if slots[0].Some? then [slots[0].value] else []) + Kept(slots[1..])
  }

  /** Newline-free lines come back from the output, one for one. */
  lemma CompileSplit(lines: seq<string>)
    requires |lines| > 0
    requires forall i :: 0 <= i < |lines| ==> '\n' !in lines[i]
    ensures Split(Compile(lines), '\n') == lines
  {
    SplitJoin(lines, '\n');
    assert [('\n')] == "\n";
  }

  /** When no line is empty, the output is empty exactly when there are no
      lines. */
  lemma CompileEmpty(lines: seq<string>)
    requires forall i :: 0 <= i < |lines| ==> |lines[i]| > 0
    ensures Compile(lines) == "" <==> |lines| == 0
  {
    if |lines| > 1 {
      assert Compile(lines) == lines[0] + "\n" + Join(lines[1..], "\n");
    }
  }
}
