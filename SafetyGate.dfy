/**
 * The checks a generated command passes before it runs.  A command that is
 * the typed line over again runs without any question.  Otherwise a
 * deny-listed word asks whether to go on, a leading `sudo` or `su` asks
 * whether to run as root, and outside automatic mode a command that was not
 * confirmed as root asks "execute?".  Every question answered no stops the
 * command.  The answers are given in the order the questions are asked; a
 * question without an answer left is answered no, as the end of input stops
 * the line.
 */
module SafetyGate {
  import opened Text
  import opened Normalizer

  /** The words that make a generated command potentially unsafe (compared lower-cased). */
  const DenyList: set<string> :=
    {"rm", "del", "delete", "-delete", "--delete", "remove", "-r", "-rf", "dd", "wipe", "shred",
     "mkfs", "format", "fdisk", "parted", "sh", "bash", "zsh", "csh", "fish", "reboot",
     "shutdown", "poweroff", "halt"}

  /** The first words that make a command run as root (compared lower-cased). */
  const RootVerbs: set<string> := {"sudo", "su"}

  /** A question the gate asks. */
  datatype Prompt = UnsafePrompt | RootPrompt | ExecutePrompt

  /** What becomes of the command: nothing, or `process_cmd` of it. */
  datatype Verdict = Abort | Execute(effect: Effect)

  /** The questions asked in order, whether the hidden command was printed, and the verdict. */
  datatype Review = Review(prompts: seq<Prompt>, revealed: bool, verdict: Verdict)

  /** The generated command is the typed one again, compared lower-cased and stripped. */
  predicate PassThrough(cmd: string, aiCmd: string)
  {
    Strip(Lower(aiCmd)) == Strip(Lower(cmd))
  }

  /** Some space-separated word of `scanned` is deny-listed. */
  predicate Unsafe(scanned: string)
  {
    var ws := Split(scanned, ' ');
    exists k :: 0 <= k < |ws| && Lower(ws[k]) in DenyList
  }

  /** The first space-separated word of `scanned` asks for root. */
  predicate Root(scanned: string)
  {
    Lower(Split(scanned, ' ')[0]) in RootVerbs
  }

  /** The answer to the `k`-th question: no when the answers have run out. */
  predicate Reply(answers: seq<bool>, k: nat)
  {
    k < |answers| && answers[k]
  }

  /**
   * The gate's decision once the checks are made: whether the command passes
   * through, holds a deny-listed word, asks for root; the mode; the answers;
   * and the effect of `process_cmd` on the command.
   */
  function Decide(pass: bool, unsafe: bool, root: bool, auto: bool, hideCmd: bool,
                  answers: seq<bool>, e: Effect): Review
  {
    if pass then Review([], false, Execute(e))
    else
      var first := if unsafe then [UnsafePrompt] else [];
      if unsafe && !Reply(answers, 0) then Review(first, hideCmd, Abort)
      else
        var k := |first|;
        var revealed := hideCmd && (unsafe || root);
        if root then
          if Reply(answers, k) then Review(first + [RootPrompt], revealed, Execute(e))
          else Review(first + [RootPrompt], revealed, Abort)
        else if !auto then
          if Reply(answers, k) then Review(first + [ExecutePrompt], revealed, Execute(e))
          else Review(first + [ExecutePrompt], revealed, Abort)
        else Review(first, revealed, Execute(e))
  }

  /**
   * The gate for the typed line `cmd` and the generated `aiCmd`, whose
   * deny-list and root checks look at the text `scanned`.
   */
  function GateOn(cmd: string, aiCmd: string, scanned: string, auto: bool, hideCmd: bool,
                  answers: seq<bool>, home: string): Review
  {
    Decide(PassThrough(cmd, aiCmd), Unsafe(scanned), Root(scanned), auto, hideCmd, answers, Normalise(aiCmd, home))
  }

  /** The gate as the shell has it: the checks look at the generated text as it arrives. */
  function Gate(cmd: string, aiCmd: string, auto: bool, hideCmd: bool, answers: seq<bool>, home: string): Review
  {
    GateOn(cmd, aiCmd, aiCmd, auto, hideCmd, answers, home)
  }

  /** The gate with the checks on the text that is run: the generated command without its backticks. */
  function GateFixed(cmd: string, aiCmd: string, auto: bool, hideCmd: bool, answers: seq<bool>, home: string): Review
  {
    GateOn(cmd, aiCmd, Unquoted(aiCmd), auto, hideCmd, answers, home)
  }

  /** The deny-list scan: a flag set by a loop over the words. */
  method ScanUnsafe(scanned: string) returns (unsafe: bool)
    ensures unsafe == Unsafe(scanned)
  {
    var words := Split(scanned, ' ');
    unsafe := false;
    for k := 0 to |words|
      invariant unsafe <==> exists j :: 0 <= j < k && Lower(words[j]) in DenyList
    {
      if Lower(words[k]) in DenyList {
        unsafe := true;
      }
    }
  }

  /**
   * The questions of the gate, asked step by step as the shell asks them:
   * the unsafe question, the root question, then "execute?", each answered
   * from `answers` in turn.
   */
  method AskQuestions(unsafe: bool, root: bool, auto: bool, hideCmd: bool, answers: seq<bool>, e: Effect)
    returns (review: Review)
    ensures review == Decide(false, unsafe, root, auto, hideCmd, answers, e)
  {
    var asked: seq<Prompt> := [];
    var revealed := false;
    var skipConfirm := false;
    if unsafe {
      if hideCmd {
        revealed := true;
      }
      asked := asked + [UnsafePrompt];
      if !Reply(answers, 0) {
        return Review(asked, revealed, Abort);
      }
    }
    if root {
      if hideCmd {
        revealed := true;
      }
      asked := asked + [RootPrompt];
      if !Reply(answers, |asked| - 1) {
        return Review(asked, revealed, Abort);
      }
      skipConfirm := true;
    }
    if !auto && !skipConfirm {
      asked := asked + [ExecutePrompt];
      if !Reply(answers, |asked| - 1) {
        return Review(asked, revealed, Abort);
      }
    }
    review := Review(asked, revealed, Execute(e));
  }

  /**
   * The gate as the shell runs it on a generated command: the pass-through
   * comparison, the deny-list scan and the root check on `scanned`, then the
   * questions.  The effect of `process_cmd` is computed up front; it is only
   * used when the command runs.
   */
  method ReviewCommand(cmd: string, aiCmd: string, scanned: string, auto: bool, hideCmd: bool,
                       answers: seq<bool>, home: string) returns (review: Review)
    ensures review == GateOn(cmd, aiCmd, scanned, auto, hideCmd, answers, home)
  {
    var e := ProcessCmd(aiCmd, home);
    if Strip(Lower(aiCmd)) == Strip(Lower(cmd)) {
      return Review([], false, Execute(e));
    }
    var unsafe := ScanUnsafe(scanned);
    var head := Lower(Split(scanned, ' ')[0]);
    var root := head == "sudo" || head == "su";
    assert root == Root(scanned);
    review := AskQuestions(unsafe, root, auto, hideCmd, answers, e);
  }

  // ---------------------------------------------------------------------
  // What the gate guarantees.

  /** Every question asked was answered yes, in order. */
  predicate AllYes(prompts: seq<Prompt>, answers: seq<bool>)
  {
    forall k :: 0 <= k < |prompts| ==> Reply(answers, k)
  }

  /** A pass-through command runs `process_cmd` of itself with no question and without being printed again. */
  lemma PassThroughLaw(cmd: string, aiCmd: string, scanned: string, auto: bool, hideCmd: bool,
                       answers: seq<bool>, home: string)
    requires PassThrough(cmd, aiCmd)
    ensures GateOn(cmd, aiCmd, scanned, auto, hideCmd, answers, home) ==
            Review([], false, Execute(Normalise(aiCmd, home)))
  {
  }

  /**
   * The decision for a command that does not pass through: the unsafe
   * question comes first exactly when the command is unsafe, whatever the
   * mode; the root question is asked exactly when the command asks for root
   * and the unsafe question, if any, was answered yes; "execute?" is asked
   * exactly when the mode is not automatic, the command does not ask for root
   * and the unsafe question was passed; the command runs exactly when every
   * question asked was answered yes, and then runs `e`; and under hiding the
   * command is printed exactly when the unsafe or the root question is reached.
   */
  lemma DecideLaws(unsafe: bool, root: bool, auto: bool, hideCmd: bool, answers: seq<bool>, e: Effect)
    ensures var r := Decide(false, unsafe, root, auto, hideCmd, answers, e);
            var passed := !unsafe || Reply(answers, 0);
            && (|r.prompts| > 0 && r.prompts[0] == UnsafePrompt <==> unsafe)
            && (RootPrompt in r.prompts <==> root && passed)
            && (ExecutePrompt in r.prompts <==> !auto && !root && passed)
            && (r.verdict.Execute? <==> AllYes(r.prompts, answers))
            && (r.verdict.Execute? ==> r.verdict.effect == e)
            && (r.revealed <==> hideCmd && (unsafe || (root && passed)))
  {
    var r := Decide(false, unsafe, root, auto, hideCmd, answers, e);
    var first := if unsafe then [UnsafePrompt] else [];
    if unsafe && !Reply(answers, 0) {
      assert r.prompts == [UnsafePrompt];
      assert !AllYes(r.prompts, answers);
    } else if root || !auto {
      var q := if root then RootPrompt else ExecutePrompt;
      assert r.prompts == first + [q];
      assert AllYes(first, answers);
      assert AllYes(r.prompts, answers) <==> Reply(answers, |first|);
    } else {
      assert r.prompts == first;
    }
  }

  /** The same laws for the gate on a generated command, its checks on the text `scanned`. */
  lemma GateLaws(cmd: string, aiCmd: string, scanned: string, auto: bool, hideCmd: bool,
                 answers: seq<bool>, home: string)
    requires !PassThrough(cmd, aiCmd)
    ensures var r := GateOn(cmd, aiCmd, scanned, auto, hideCmd, answers, home);
            var passed := !Unsafe(scanned) || Reply(answers, 0);
            && (|r.prompts| > 0 && r.prompts[0] == UnsafePrompt <==> Unsafe(scanned))
            && (RootPrompt in r.prompts <==> Root(scanned) && passed)
            && (ExecutePrompt in r.prompts <==> !auto && !Root(scanned) && passed)
            && (r.verdict.Execute? <==> AllYes(r.prompts, answers))
            && (r.verdict.Execute? ==> r.verdict.effect == Normalise(aiCmd, home))
            && (r.revealed <==> hideCmd && (Unsafe(scanned) || (Root(scanned) && passed)))
  {
    DecideLaws(Unsafe(scanned), Root(scanned), auto, hideCmd, answers, Normalise(aiCmd, home));
  }

  /** Under automatic mode a command with neither a deny-listed word nor a root request runs unasked. */
  lemma AutoRunsUnasked(cmd: string, aiCmd: string, scanned: string, hideCmd: bool,
                        answers: seq<bool>, home: string)
    requires !Unsafe(scanned) && !Root(scanned)
    ensures GateOn(cmd, aiCmd, scanned, true, hideCmd, answers, home) ==
            Review([], false, Execute(Normalise(aiCmd, home)))
  {
  }

  /** A command confirmed as root is not asked "execute?", even outside automatic mode. */
  lemma RootSkipsExecute(cmd: string, aiCmd: string, scanned: string, auto: bool, hideCmd: bool,
                         answers: seq<bool>, home: string)
    requires !PassThrough(cmd, aiCmd) && Root(scanned)
    ensures ExecutePrompt !in GateOn(cmd, aiCmd, scanned, auto, hideCmd, answers, home).prompts
  {
    GateLaws(cmd, aiCmd, scanned, auto, hideCmd, answers, home);
  }

  /**
   * The gate as written: a command that does not pass through and has a
   * deny-listed word among its words as generated is asked the unsafe
   * question first, and runs only if it was answered yes.
   */
  lemma GateGuardsUnsafe(cmd: string, aiCmd: string, auto: bool, hideCmd: bool,
                         answers: seq<bool>, home: string)
    requires !PassThrough(cmd, aiCmd) && Unsafe(aiCmd)
    ensures var r := Gate(cmd, aiCmd, auto, hideCmd, answers, home);
            && |r.prompts| > 0 && r.prompts[0] == UnsafePrompt
            && (r.verdict.Execute? ==> Reply(answers, 0))
  {
    GateLaws(cmd, aiCmd, aiCmd, auto, hideCmd, answers, home);
  }

  /** Likewise a command whose first word as generated is `sudo` or `su` runs only after the root question was answered yes. */
  lemma GateGuardsRoot(cmd: string, aiCmd: string, auto: bool, hideCmd: bool,
                       answers: seq<bool>, home: string)
    requires !PassThrough(cmd, aiCmd)
    requires Lower(Split(aiCmd, ' ')[0]) in RootVerbs
    ensures var r := Gate(cmd, aiCmd, auto, hideCmd, answers, home);
            r.verdict.Execute? ==> RootPrompt in r.prompts && AllYes(r.prompts, answers)
  {
    GateLaws(cmd, aiCmd, aiCmd, auto, hideCmd, answers, home);
  }

  /** The words of the generated command `` `rm x` ``, before and after its backticks are removed. */
  lemma BypassWords(ai: string)
    requires ai == "`rm x`"
    ensures Split(ai, ' ') == ["`rm", "x`"]
    ensures Unquoted(ai) == "rm x"
    ensures Split(Unquoted(ai), ' ') == ["rm", "x"]
  {
    var w0, w1, r0, r1 := "`rm", "x`", "rm", "x";
    assert ai == w0 + [' '] + w1;
    SplitPair(w0, ' ', w1);
    var run := "rm x";
    assert run == r0 + [' '] + r1;
    SplitPair(r0, ' ', r1);
    assert ai == ['`'] + run + ['`'];
    StripWrapped(run, '`');
  }

  /** The typed line `delete x` and the generated `` `rm x` `` differ, however compared. */
  lemma BypassNotPassThrough(typed: string, ai: string)
    requires typed == "delete x" && ai == "`rm x`"
    ensures !PassThrough(typed, ai)
  {
    Settled(typed);
    Settled(ai);
    assert typed[0] != ai[0];
  }

  /** A lower-case text without surrounding blanks compares as itself. */
  lemma Settled(s: string)
    requires s != [] && s[0] !in Whitespace && s[|s| - 1] !in Whitespace
    requires forall k :: 0 <= k < |s| ==> !('A' <= s[k] <= 'Z') && s[k] != '\U{212A}'
    ensures Strip(Lower(s)) == s
  {
    LowerPlain(s);
    StripCharsKeeps(s, Whitespace);
  }

  /**
   * The gate as written scans the generated text before its backticks are
   * removed, while `process_cmd` removes them before running it: for the
   * typed line `delete x`, in automatic mode the generated `` `rm x` `` runs
   * `rm x` with no question at all, though `rm` is deny-listed.
   */
  lemma BacktickBypass(typed: string, ai: string, home: string)
    requires typed == "delete x" && ai == "`rm x`"
    ensures Gate(typed, ai, true, false, [], home) == Review([], false, Execute(Run("rm x")))
    ensures Unsafe(Unquoted(ai))
  {
    BypassNotPassThrough(typed, ai);
    BypassScan(ai);
    BypassRuns(ai, home);
  }

  /** In automatic mode the generated `` `rm x` `` runs `rm x` unasked, whatever the typed line. */
  lemma BypassInAuto(cmd: string, ai: string, hideCmd: bool, answers: seq<bool>, home: string)
    requires ai == "`rm x`"
    ensures Gate(cmd, ai, true, hideCmd, answers, home) == Review([], false, Execute(Run("rm x")))
  {
    BypassScan(ai);
    AutoRunsUnasked(cmd, ai, ai, hideCmd, answers, home);
    BypassRuns(ai, home);
  }

  /** The scan of `` `rm x` `` finds nothing, while the scan of the text run finds `rm`. */
  lemma BypassScan(ai: string)
    requires ai == "`rm x`"
    ensures !Unsafe(ai) && !Root(ai) && Unsafe(Unquoted(ai))
  {
    BypassWords(ai);
    var w0, w1, r0 := "`rm", "x`", "rm";
    LowerPlain(w0);
    LowerPlain(w1);
    LowerPlain(r0);
    Unlisted(w0);
    Unlisted(w1);
    var ws := Split(ai, ' ');
    assert forall k :: 0 <= k < |ws| ==> ws[k] == w0 || ws[k] == w1;
    assert Lower(Split(Unquoted(ai), ' ')[0]) == r0;
  }

  /** A word holding a backtick is on neither list. */
  lemma Unlisted(w: string)
    requires '`' in w
    ensures w !in DenyList && w !in RootVerbs
  {
  }

  /** `process_cmd` runs `` `rm x` `` as `rm x`. */
  lemma BypassRuns(ai: string, home: string)
    requires ai == "`rm x`"
    ensures Normalise(ai, home) == Run("rm x")
  {
    BypassWords(ai);
    var r0, r1 := "rm", "x";
    var ws := Split(Unquoted(ai), ' ');
    assert ws == [r0, r1];
    LowerPlain(r0);
    LowerPlain(r1);
    assert Lower(ws[0]) == r0 && Lower(ws[1]) == r1;
    assert NoAlias(ws) by {
      forall k | 0 <= k < |ws| ensures Lower(ws[k]) != "ls" {
        assert k == 0 || k == 1;
      }
    }
    RunUnchanged(ai, home);
  }

  /**
   * With the checks on the text that is run, a command that runs outside
   * pass-through and holds a deny-listed word among the words `process_cmd`
   * runs was confirmed at the unsafe question first.
   */
  lemma GateFixedGuardsRun(cmd: string, aiCmd: string, auto: bool, hideCmd: bool,
                           answers: seq<bool>, home: string)
    requires !PassThrough(cmd, aiCmd)
    requires var ws := Split(Unquoted(aiCmd), ' '); exists k :: 0 <= k < |ws| && Lower(ws[k]) in DenyList
    ensures var r := GateFixed(cmd, aiCmd, auto, hideCmd, answers, home);
            && |r.prompts| > 0 && r.prompts[0] == UnsafePrompt
            && (r.verdict.Execute? ==> Reply(answers, 0))
  {
    GateLaws(cmd, aiCmd, Unquoted(aiCmd), auto, hideCmd, answers, home);
  }

  /** Likewise a command whose run text starts with `sudo` or `su` runs only after the root question was answered yes. */
  lemma GateFixedGuardsRoot(cmd: string, aiCmd: string, auto: bool, hideCmd: bool,
                            answers: seq<bool>, home: string)
    requires !PassThrough(cmd, aiCmd)
    requires Lower(Split(Unquoted(aiCmd), ' ')[0]) in RootVerbs
    ensures var r := GateFixed(cmd, aiCmd, auto, hideCmd, answers, home);
            r.verdict.Execute? ==> RootPrompt in r.prompts && AllYes(r.prompts, answers)
  {
    GateLaws(cmd, aiCmd, Unquoted(aiCmd), auto, hideCmd, answers, home);
  }
}
