/**
 * The readme command extraction of test_tutorial_gen.py: indented readme
 * lines are stripped, cut before their first `&&`, and kept when they call
 * `python3 inspiderweb.py` and are not mock-ups with `<...>` placeholders;
 * the kept commands, one per line, make up the generated shell script.
 */
module TutorialScript {
  import opened Wrappers
  import opened Strings

  const Indent := "    "
  const Tab := "\t"
  const Chain := "&&"
  const Invocation := "python3 inspiderweb.py"

  /** A line inside a markdown code block: indented by four spaces or a tab. */
  predicate IsCodeLine(line: string) {
    StartsWith(line, Indent) || StartsWith(line, Tab)
  }

  /** `line.strip().split("&&")[0]`: the stripped line up to its first `&&`. */
  function Command(line: string): string {
    BeforeFirst(Strip(line), Chain)
  }

  /** A command with both angle brackets is taken for a placeholder mock-up. */
  predicate IsMockup(command: string) {
    '<' in command && '>' in command
  }

  /** The command a readme line contributes to the script, if any. */
  function Emitted(line: string): Option<string> {
    if line == [] || !IsCodeLine(line) then None
    else
      var command := Command(line);
      if IsMockup(command) || !Contains(command, Invocation) then None
      else Some(command)
  }

  /**
   * An emitted command comes from an indented line, is that line stripped
   * and cut before its first `&&` (no `&&` of the stripped line starts
   * inside the command, and one starts right after it unless nothing was
   * cut), is no mock-up, and calls inspiderweb.
   */
  lemma EmittedShape(line: string)
    requires Emitted(line).Some?
    ensures var command := Emitted(line).value;
            && IsCodeLine(line)
            && StartsWith(Strip(line), command)
            && (|command| < |Strip(line)| ==> OccursAt(Strip(line), Chain, |command|))
            && (forall j: nat :: j < |command| ==> !OccursAt(Strip(line), Chain, j))
            && !Contains(command, Chain)
            && !('<' in command && '>' in command)
            && Contains(command, Invocation)
  {
  }

  /** Stripping a command behind leading whitespace gives the command back. */
  lemma StripLeading(w: string, c: string)
    requires AllWhitespace(w) && c != [] && IsStripped(c)
    ensures Strip(w + c) == c
  {
    var s := w + c;
    var r := Strip(s);
    var i: nat :| IsMiddle(s, i, r);
    assert s[|w|] == c[0] && s[|s| - 1] == c[|c| - 1];
    assert i == |w|;
    assert i + |r| == |s|;
    assert r == s[|w|..] == c;
  }

  /** A command without `&&` is not cut. */
  lemma CommandWhole(c: string)
    requires !Contains(c, Chain)
    ensures BeforeFirst(c, Chain) == c
  {
  }

  lemma CommandOfIndented(c: string)
    requires c != [] && IsStripped(c) && !Contains(c, Chain)
    ensures Command(Indent + c) == c
  {
    StripLeading(Indent, c);
    CommandWhole(c);
  }

  /**
   * An indented command that calls inspiderweb, has no `&&` and is no
   * mock-up is emitted exactly as written: in particular a tab inside it
   * stays, since the tab removal result is thrown away.
   */
  lemma EmittedVerbatim(c: string)
    requires c != [] && IsStripped(c)
    requires !Contains(c, Chain) && !IsMockup(c) && Contains(c, Invocation)
    ensures Emitted(Indent + c) == Some(c)
  {
    CommandOfIndented(c);
    assert (Indent + c)[..|Indent|] == Indent;
  }

  /** The results `keep` gives the lines, each followed by a newline, in order. */
  function Collect(lines: seq<string>, keep: string -> Option<string>): seq<string> {
    if lines == [] then []
    else
      var front := Collect(lines[..|lines| - 1], keep);
      match keep(lines[|lines| - 1])
      case None => front
      case Some(command) => front + [command + "\n"]
  }

  /** The script lines: each emitted command followed by a newline, in readme order. */
  function ScriptLines(readme: seq<string>): seq<string> {
    Collect(readme, Emitted)
  }

  /** One more line adds its kept result, if any, at the end. */
  lemma CollectSnoc(lines: seq<string>, line: string, keep: string -> Option<string>)
    ensures Collect(lines + [line], keep)
         == Collect(lines, keep) + if keep(line).Some? then [keep(line).value + "\n"] else []
  {
    assert (lines + [line])[..|lines|] == lines;
  }

  lemma {:induction false} CollectAppend(a: seq<string>, b: seq<string>, keep: string -> Option<string>)
    ensures Collect(a + b, keep) == Collect(a, keep) + Collect(b, keep)
    decreases |b|
  {
    if b == [] {
      assert a + b == a;
    } else {
      var front := b[..|b| - 1];
      var last := b[|b| - 1];
      assert a + b == (a + front) + [last];
      assert b == front + [last];
      CollectAppend(a, front, keep);
      CollectSnoc(a + front, last, keep);
      CollectSnoc(front, last, keep);
    }
  }

  /** The script of two stretches of readme is the script of the first, then that of the second. */
  lemma ScriptLinesAppend(a: seq<string>, b: seq<string>)
    ensures ScriptLines(a + b) == ScriptLines(a) + ScriptLines(b)
  {
    CollectAppend(a, b, Emitted);
  }

  lemma {:induction false} CollectFrom(lines: seq<string>, keep: string -> Option<string>, k: nat)
    requires k < |Collect(lines, keep)|
    ensures exists i :: 0 <= i < |lines| && keep(lines[i]).Some?
                        && Collect(lines, keep)[k] == keep(lines[i]).value + "\n"
  {
    var front := lines[..|lines| - 1];
    if k < |Collect(front, keep)| {
      CollectFrom(front, keep, k);
      var i :| 0 <= i < |front| && keep(front[i]).Some? && Collect(front, keep)[k] == keep(front[i]).value + "\n";
      assert lines[i] == front[i];
    } else {
      assert keep(lines[|lines| - 1]).Some?;
    }
  }

  /** Every script line is the command of some readme line, ended by a newline. */
  lemma ScriptLinesFrom(readme: seq<string>, k: nat)
    requires k < |ScriptLines(readme)|
    ensures exists i :: 0 <= i < |readme| && Emitted(readme[i]).Some?
                        && ScriptLines(readme)[k] == Emitted(readme[i]).value + "\n"
  {
    CollectFrom(readme, Emitted, k);
  }

  /** Each readme line that yields a command yields exactly one script line. */
  lemma ScriptLineOfOne(line: string)
    ensures ScriptLines([line]) == if Emitted(line).Some? then [Emitted(line).value + "\n"] else []
  {
    assert [line][..0] == [];
    assert Collect([line][..0], Emitted) == [];
  }

  lemma ScriptLinesStep(readme: seq<string>, n: nat)
    requires n < |readme|
    ensures ScriptLines(readme[..n + 1])
         == ScriptLines(readme[..n]) + if Emitted(readme[n]).Some? then [Emitted(readme[n]).value + "\n"] else []
  {
    assert readme[..n + 1] == readme[..n] + [readme[n]];
    CollectSnoc(readme[..n], readme[n], Emitted);
  }

  /** The filters of lines 13-26 applied to one readme line, each one skipping the line. */
  method Process(line: string) returns (kept: Option<string>)
    ensures kept == Emitted(line)
  {
    if line == [] {
      return None;
    }
    if !IsCodeLine(line) {
      return None;
    }
    var command := Command(line);
    if IsMockup(command) {
      return None;
    }
    if !Contains(command, Invocation) {
      return None;
    }
    return Some(command);
  }

  /** The loop of lines 12-27, writing each kept command and a newline. */
  method GenerateScript(readme: seq<string>) returns (script: string)
    ensures script == Concat(ScriptLines(readme))
  {
    script := "";
    ghost var written: seq<string> := [];
    var n := 0;
    while n < |readme|
      invariant n <= |readme|
      invariant written == ScriptLines(readme[..n])
      invariant script == Concat(written)
    {
      var line := readme[n];
      var kept := Process(line);
      ScriptLinesStep(readme, n);
      if kept.Some? {
        var piece := kept.value + "\n";
        assert (written + [piece])[..|written|] == written;
        written := written + [piece];
        script := script + piece;
      }
      n := n + 1;
    }
    assert readme[..n] == readme;
  }
}
