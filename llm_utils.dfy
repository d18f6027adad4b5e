/** Prompt assembly of `llm_utils.py`: filling `!<KEY>!` placeholders, the JSON
    "Output Format" block and the numbered step instructions built from prompt modules. */
module LlmUtils {
  import opened Wrappers
  import opened Strings

  /** A prompt module: the optional `name` key and the `instruction` text. */
  datatype Module = Module(name: Option<string>, instruction: string)

  // ---------------------------------------------------------------------------
  // fill_prompt

  /** The tag that stands for placeholder `key` in a prompt. */
  function Tag(key: string): (tag: string)
    ensures |tag| == |key| + 4 && tag[..2] == "!<" && tag[|tag| - 2..] == ">!"
  {
    "!<" + Upper(key) + ">!"
  }

  /** One iteration of `fill_prompt`: replace the tag of `key` when it occurs. */
  function FillOne(prompt: string, key: string, value: string): string {
    var tag := Tag(key);
    if Contains(prompt, tag) then ReplaceAll(prompt, tag, value) else prompt
  }

  /** The placeholders applied one after the other, in insertion order of the map. */
  function Fill(prompt: string, placeholders: seq<(string, string)>): string
    decreases |placeholders|
  {
    if |placeholders| == 0 then prompt
    else
      var last := placeholders[|placeholders| - 1];
      FillOne(Fill(prompt, placeholders[..|placeholders| - 1]), last.0, last.1)
  }

  /** `fill_prompt(prompt, placeholders)`; a value is given as its `str(value)` text. */
  method FillPrompt(prompt: string, placeholders: seq<(string, string)>) returns (filled: string)
    ensures filled == Fill(prompt, placeholders)
  {
    filled := prompt;
    for i := 0 to |placeholders|
      invariant filled == Fill(prompt, placeholders[..i])
    {
      var (placeholder, value) := placeholders[i];
      var tag := Tag(placeholder);
      if Contains(filled, tag) {
        filled := ReplaceAll(filled, tag, value);
      }
      assert placeholders[..i + 1][..i] == placeholders[..i];
    }
    assert placeholders[..|placeholders|] == placeholders;
  }

  /** With no placeholders the prompt is returned unchanged. */
  lemma FillNothing(prompt: string)
    ensures Fill(prompt, []) == prompt
  {
  }

  /** The `in` guard is redundant: one step is exactly `prompt.replace(tag, value)`. */
  lemma FillOneIsReplace(prompt: string, key: string, value: string)
    ensures FillOne(prompt, key, value) == ReplaceAll(prompt, Tag(key), value)
  {
    if !Contains(prompt, Tag(key)) {
      ReplaceAbsent(prompt, Tag(key), value);
    }
  }

  /** One step cuts the prompt at every occurrence of the tag and puts the value in
      between: no piece left over holds the tag, and rejoining with the tag gives the prompt. */
  lemma FillOneReplacesEveryTag(prompt: string, key: string, value: string)
    ensures FillOne(prompt, key, value) == Join(Split(prompt, Tag(key)), value)
    ensures Join(Split(prompt, Tag(key)), Tag(key)) == prompt
    ensures forall i :: 0 <= i < |Split(prompt, Tag(key))| ==> !Contains(Split(prompt, Tag(key))[i], Tag(key))
  {
    FillOneIsReplace(prompt, key, value);
    ReplaceIsJoinOfSplit(prompt, Tag(key), value);
    JoinSplit(prompt, Tag(key));
    SplitPartsAreFree(prompt, Tag(key));
  }

  /** A placeholder whose tag does not occur leaves the prompt unchanged. */
  lemma FillOneAbsent(prompt: string, key: string, value: string)
    requires !Contains(prompt, Tag(key))
    ensures FillOne(prompt, key, value) == prompt
  {
  }

  /** Placeholders are applied in map order: filling with `a` then `b` is filling with `a + b`. */
  lemma {:induction false} FillInOrder(prompt: string, a: seq<(string, string)>, b: seq<(string, string)>)
    ensures Fill(prompt, a + b) == Fill(Fill(prompt, a), b)
    decreases |b|
  {
    if |b| == 0 {
      assert a + b == a;
    } else {
      assert (a + b)[..|a + b| - 1] == a + b[..|b| - 1];
      FillInOrder(prompt, a, b[..|b| - 1]);
    }
  }

  // ---------------------------------------------------------------------------
  // make_output_format

  const OutputHeader := "Output Format:\n{\n"

  /** A module gets an output line when its name is present and non-empty. */
  predicate HasOutputName(m: Module) {
    m.name.Some? && m.name.value != ""
  }

  /** The output line of a module name, without its trailing `,\n`. */
  function OutputLine(name: string): (line: string)
    ensures |line| > 0 && line[|line| - 1] == '"'
  {
    "    \"" + Lower(name) + "\": \"<your response>\""
  }

  /** The output lines of the modules, in module order. */
  function OutputLines(modules: seq<Module>): seq<string>
    decreases |modules|
  {
    if |modules| == 0 then []
    else
      var m := modules[|modules| - 1];
      OutputLines(modules[..|modules| - 1]) + (if HasOutputName(m) then [OutputLine(m.name.value)] else [])
  }

  /** The intended block: the lines joined by `,\n` between the braces. */
  function OutputFormat(modules: seq<Module>): string {
    var lines := OutputLines(modules);
    if |lines| == 0 then "Output Format:\n{\n}"
    else OutputHeader + Join(lines, ",\n") + "\n}"
  }

  /** Each line followed by `,\n`, as the loop of `make_output_format` appends them. */
  function Terminated(lines: seq<string>): string
    decreases |lines|
  {
    if |lines| == 0 then "" else Terminated(lines[..|lines| - 1]) + lines[|lines| - 1] + ",\n"
  }

  lemma {:induction false} TerminatedIsJoin(lines: seq<string>)
    requires |lines| > 0
    ensures Terminated(lines) == Join(lines, ",\n") + ",\n"
    decreases |lines|
  {
    var n := |lines|;
    if n == 1 {
      assert lines[..0] == [];
    } else {
      TerminatedIsJoin(lines[..n - 1]);
      assert lines[..n - 1] + [lines[n - 1]] == lines;
      JoinSnoc(lines[..n - 1], lines[n - 1], ",\n");
    }
  }

  /** A join ends the way its last part ends. */
  lemma JoinEndsWithLastPart(lines: seq<string>, sep: string)
    requires |lines| > 0 && |lines[|lines| - 1]| > 0
    ensures |Join(lines, sep)| > 0
    ensures Join(lines, sep)[|Join(lines, sep)| - 1] == lines[|lines| - 1][|lines[|lines| - 1]| - 1]
  {
    var n := |lines|;
    if n > 1 {
      assert lines[..n - 1] + [lines[n - 1]] == lines;
      JoinSnoc(lines[..n - 1], lines[n - 1], sep);
    }
  }

  lemma OutputLinesEndInQuote(modules: seq<Module>)
    ensures forall i :: 0 <= i < |OutputLines(modules)| ==>
      |OutputLines(modules)[i]| > 0 && OutputLines(modules)[i][|OutputLines(modules)[i]| - 1] == '"'
    decreases |modules|
  {
    if |modules| > 0 {
      OutputLinesEndInQuote(modules[..|modules| - 1]);
    }
  }

  /** `make_output_format(modules)`: appends one line per named module, then strips the
      trailing `,` and newline characters with `rstrip(',\n')` and closes the brace. */
  method MakeOutputFormat(modules: seq<Module>) returns (format: string)
    ensures format == OutputFormat(modules)
  {
    format := AppendOutputLines(modules);
    StrippedFormat(modules);
    format := RStrip(format, ",\n") + "\n}";
  }

  /** The loop of `make_output_format`: the header, then each output line followed by `,\n`. */
  method AppendOutputLines(modules: seq<Module>) returns (format: string)
    ensures format == OutputHeader + Terminated(OutputLines(modules))
  {
    format := OutputHeader;
    for i := 0 to |modules|
      invariant format == OutputHeader + Terminated(OutputLines(modules[..i]))
    {
      var m := modules[i];
      assert modules[..i + 1][..i] == modules[..i];
      if m.name.Some? && m.name.value != "" {
        format := format + OutputLine(m.name.value) + ",\n";
        assert OutputLines(modules[..i + 1]) == OutputLines(modules[..i]) + [OutputLine(m.name.value)];
      } else {
        assert OutputLines(modules[..i + 1]) == OutputLines(modules[..i]);
      }
    }
    assert modules[..|modules|] == modules;
  }

  /** Stripping the trailing `,` and newlines from what the loop appended and closing the
      brace gives the lines joined by `,\n`: no line loses a character, because every line
      ends in a quote; with no lines, the newline after the brace goes too. */
  lemma StrippedFormat(modules: seq<Module>)
    ensures RStrip(OutputHeader + Terminated(OutputLines(modules)), ",\n") + "\n}" == OutputFormat(modules)
  {
    var lines := OutputLines(modules);
    if |lines| == 0 {
      RStripDropsTail("Output Format:\n{", "\n", ",\n");
      assert OutputHeader == "Output Format:\n{" + "\n";
    } else {
      TerminatedIsJoin(lines);
      OutputLinesEndInQuote(modules);
      JoinEndsWithLastPart(lines, ",\n");
      RStripDropsTail(OutputHeader + Join(lines, ",\n"), ",\n", ",\n");
      assert OutputHeader + Terminated(lines) == (OutputHeader + Join(lines, ",\n")) + ",\n";
    }
  }

  lemma {:induction false} NoOutputNameNoLines(modules: seq<Module>)
    requires forall i :: 0 <= i < |modules| ==> !HasOutputName(modules[i])
    ensures OutputLines(modules) == []
    decreases |modules|
  {
    if |modules| > 0 {
      NoOutputNameNoLines(modules[..|modules| - 1]);
    }
  }

  /** The block always opens with the header and brace and ends with a closing brace on a
      line of its own; with no named module it is exactly the empty block. */
  lemma OutputFormatShape(modules: seq<Module>)
    ensures IsPrefix("Output Format:\n{", OutputFormat(modules))
    ensures |OutputFormat(modules)| >= 2
    ensures OutputFormat(modules)[|OutputFormat(modules)| - 2..] == "\n}"
    ensures (forall i :: 0 <= i < |modules| ==> !HasOutputName(modules[i])) ==>
      OutputFormat(modules) == "Output Format:\n{\n}"
  {
    if forall i :: 0 <= i < |modules| ==> !HasOutputName(modules[i]) {
      NoOutputNameNoLines(modules);
    }
  }

  /** One output line per module with a non-empty name: their number. */
  function CountOutputNames(modules: seq<Module>): nat
    decreases |modules|
  {
    if |modules| == 0 then 0
    else CountOutputNames(modules[..|modules| - 1]) + (if HasOutputName(modules[|modules| - 1]) then 1 else 0)
  }

  lemma {:induction false} OutputLinesCount(modules: seq<Module>)
    ensures |OutputLines(modules)| == CountOutputNames(modules)
    decreases |modules|
  {
    if |modules| > 0 {
      OutputLinesCount(modules[..|modules| - 1]);
    }
  }

  // ---------------------------------------------------------------------------
  // modular_instructions

  /** A module is a step when it has a `name` key, even an empty one. */
  predicate IsStep(m: Module) {
    m.name.Some?
  }

  function CountSteps(modules: seq<Module>): nat
    decreases |modules|
  {
    if |modules| == 0 then 0 else (if IsStep(modules[0]) then 1 else 0) + CountSteps(modules[1..])
  }

  /** The line of one module, given the step number it gets if it is a step. */
  function ModuleLine(m: Module, step: nat): string {
    if IsStep(m) then "Step " + NatToString(step) + " (" + m.name.value + "): " + m.instruction + "\n"
    else m.instruction + "\n"
  }

  /** The instruction lines of `modules` when `before` steps precede them. */
  function Steps(modules: seq<Module>, before: nat): string
    decreases |modules|
  {
    if |modules| == 0 then ""
    else
      var next := before + (if IsStep(modules[0]) then 1 else 0);
      ModuleLine(modules[0], next) + Steps(modules[1..], next)
  }

  lemma {:induction false} CountStepsSnoc(modules: seq<Module>, m: Module)
    ensures CountSteps(modules + [m]) == CountSteps(modules) + (if IsStep(m) then 1 else 0)
    decreases |modules|
  {
    if |modules| > 0 {
      assert (modules + [m])[1..] == modules[1..] + [m];
      CountStepsSnoc(modules[1..], m);
    } else {
      assert (modules + [m])[1..] == [];
    }
  }

  /** One more module adds its own line, numbered after every step before it. */
  lemma {:induction false} StepsSnoc(modules: seq<Module>, m: Module, before: nat)
    ensures Steps(modules + [m], before) ==
      Steps(modules, before) + ModuleLine(m, before + CountSteps(modules) + (if IsStep(m) then 1 else 0))
    decreases |modules|
  {
    if |modules| > 0 {
      assert (modules + [m])[1..] == modules[1..] + [m];
      var next := before + (if IsStep(modules[0]) then 1 else 0);
      StepsSnoc(modules[1..], m, next);
    } else {
      assert (modules + [m])[1..] == [];
    }
  }

  /** `modular_instructions(modules)`: the numbered lines, an empty line and the output block. */
  method ModularInstructions(modules: seq<Module>) returns (prompt: string)
    ensures prompt == Steps(modules, 0) + "\n" + OutputFormat(modules)
  {
    prompt := "";
    var stepCount := 0;
    for i := 0 to |modules|
      invariant stepCount == CountSteps(modules[..i])
      invariant prompt == Steps(modules[..i], 0)
    {
      var m := modules[i];
      assert modules[..i + 1] == modules[..i] + [m];
      StepsSnoc(modules[..i], m, 0);
      CountStepsSnoc(modules[..i], m);
      if m.name.Some? {
        stepCount := stepCount + 1;
        prompt := prompt + ("Step " + NatToString(stepCount) + " (" + m.name.value + "): " + m.instruction + "\n");
      } else {
        prompt := prompt + (m.instruction + "\n");
      }
    }
    assert modules[..|modules|] == modules;
    prompt := prompt + "\n";
    var format := MakeOutputFormat(modules);
    prompt := prompt + format;
  }

  /** Steps are numbered consecutively in module order: the module at index `i` that is a
      step gets number (steps before it) + 1, and its line follows the lines before it. */
  lemma StepNumbering(modules: seq<Module>, i: nat)
    requires i < |modules| && IsStep(modules[i])
    ensures IsPrefix(Steps(modules[..i], 0) + ModuleLine(modules[i], CountSteps(modules[..i]) + 1),
                     Steps(modules, 0))
  {
    StepsAt(modules, i);
    StepsPrefix(modules, i + 1);
  }

  /** `Steps` of a prefix one module longer, in terms of the shorter prefix. */
  lemma StepsAt(modules: seq<Module>, i: nat)
    requires i < |modules|
    ensures Steps(modules[..i + 1], 0) ==
      Steps(modules[..i], 0) + ModuleLine(modules[i], CountSteps(modules[..i]) + (if IsStep(modules[i]) then 1 else 0))
  {
    assert modules[..i + 1] == modules[..i] + [modules[i]];
    StepsSnoc(modules[..i], modules[i], 0);
  }

  lemma {:induction false} StepsPrefix(modules: seq<Module>, j: nat)
    requires j <= |modules|
    ensures IsPrefix(Steps(modules[..j], 0), Steps(modules, 0))
    decreases |modules| - j
  {
    if j < |modules| {
      StepsPrefix(modules, j + 1);
      assert modules[..j + 1] == modules[..j] + [modules[j]];
      StepsSnoc(modules[..j], modules[j], 0);
    } else {
      assert modules[..j] == modules;
    }
  }

  function CountEmptyNames(modules: seq<Module>): nat
    decreases |modules|
  {
    if |modules| == 0 then 0 else (if modules[0].name == Some("") then 1 else 0) + CountEmptyNames(modules[1..])
  }

  /** A module whose name key is empty is a step but has no output line, so the steps number
      the output lines plus the empty-named modules. */
  lemma {:induction false} StepsVersusOutputLines(modules: seq<Module>)
    ensures CountSteps(modules) == |OutputLines(modules)| + CountEmptyNames(modules)
    decreases |modules|
  {
    OutputLinesCount(modules);
    CountOutputNamesFront(modules);
  }

  /** `CountOutputNames` counted from the front, to compare with the step count. */
  lemma {:induction false} CountOutputNamesFront(modules: seq<Module>)
    ensures CountSteps(modules) == CountOutputNames(modules) + CountEmptyNames(modules)
    decreases |modules|
  {
    if |modules| > 0 {
      var n := |modules|;
      CountOutputNamesFront(modules[..n - 1]);
      CountStepsSnoc(modules[..n - 1], modules[n - 1]);
      CountEmptyNamesSnoc(modules[..n - 1], modules[n - 1]);
      assert modules[..n - 1] + [modules[n - 1]] == modules;
    }
  }

  lemma {:induction false} CountEmptyNamesSnoc(modules: seq<Module>, m: Module)
    ensures CountEmptyNames(modules + [m]) == CountEmptyNames(modules) + (if m.name == Some("") then 1 else 0)
    decreases |modules|
  {
    if |modules| > 0 {
      assert (modules + [m])[1..] == modules[1..] + [m];
      CountEmptyNamesSnoc(modules[1..], m);
    } else {
      assert (modules + [m])[1..] == [];
    }
  }
}
