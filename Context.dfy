/**
 * The smaller pieces around the main loop: the environment variables shown to
 * the model, the command-name completion of the line editor, and the shape of
 * the request sent for a typed line.
 */
module Context {
  import opened Text

  // ---------------------------------------------------------------------
  // The environment allow-list.

  /** The variables whose values the model is told about (`env_vars_to_pass_on`). */
  const PassedOn: set<string> :=
    {"USER", "HOME", "PATH", "TERM", "COLORTERM", "LANG", "EDITOR",
     "XDG_CONFIG_HOME", "XDG_DATA_HOME", "XDG_CURRENT_DESKTOP"}

  /** The allowed part of the environment `env`. */
  function Passed(env: map<string, string>): map<string, string>
  {
    map k | k in env && k in PassedOn :: env[k]
  }

  /** The loop building `env_vars_display`: every variable of the environment, in some order, kept when allowed. */
  method FilterEnv(env: map<string, string>) returns (display: map<string, string>)
    ensures display == Passed(env)
  {
    display := map[];
    var rest := env.Keys;
    while rest != {}
      invariant rest <= env.Keys
      invariant display == map k | k in env && k !in rest && k in PassedOn :: env[k]
      decreases rest
    {
      var key :| key in rest;
      if key in PassedOn {
        display := display[key := env[key]];
      }
      rest := rest - {key};
    }
  }

  /**
   * The variables shown are exactly the allowed ones the environment has,
   * with their values; at most ten are shown, and filtering again changes
   * nothing.
   */
  lemma PassedLaws(env: map<string, string>)
    ensures Passed(env).Keys == env.Keys * PassedOn
    ensures forall k :: k in Passed(env) ==> Passed(env)[k] == env[k]
    ensures Passed(Passed(env)) == Passed(env)
    ensures |Passed(env)| <= 10
  {
    var p := Passed(env);
    assert p.Keys == env.Keys * PassedOn;
    assert p.Keys <= PassedOn;
    assert |PassedOn| == 10;
    SubsetCard(p.Keys, PassedOn);
  }

  /** A subset is no larger than the set. */
  lemma {:induction false} SubsetCard(a: set<string>, b: set<string>)
    requires a <= b
    ensures |a| <= |b|
    decreases |b|
  {
    if a != {} {
      var x :| x in a;
      SubsetCard(a - {x}, b - {x});
    }
  }

  // ---------------------------------------------------------------------
  // Command-name completion.

  /** The built-in verbs offered for completion, in the order offered. */
  const Commands: seq<string> := ["help", "settings", "config", "connect", "disconnect", "auto", "hide"]

  /** The length of the run of non-blank characters that starts `t`. */
  function WordLength(t: string): (n: nat)
    ensures n <= |t|
    ensures forall k :: 0 <= k < n ==> t[k] !in Whitespace
    ensures n == |t| || t[n] in Whitespace
  {
    if t == [] || t[0] in Whitespace then 0 else 1 + WordLength(t[1..])
  }

  /** `s.split()`: the maximal runs of non-blank characters, in order. */
  function Words(s: string): seq<string>
    decreases |s|
  {
    var t := TrimStart(s, Whitespace);
    if t == [] then []
    else
      var n := WordLength(t);
      assert t[0] !in Whitespace;
      [t[..n]] + Words(t[n..])
  }

  /** A text has no words exactly when every character of it is blank. */
  lemma {:induction false} WordsNone(s: string)
    ensures Words(s) == [] <==> forall k :: 0 <= k < |s| ==> s[k] in Whitespace
  {
    var t := TrimStart(s, Whitespace);
    if t != [] {
      assert s[|s| - |t|] == t[0];
    }
  }

  /** What the completer offers for `text`: verb names, and whether file completion follows. */
  datatype Offer = Offer(names: seq<string>, files: bool)

  /** The verbs of `cmds` that start with `text`, both lower-cased, in order. */
  function Suggested(cmds: seq<string>, text: string): seq<string>
  {
    if cmds == [] then []
    else (if Lower(text) <= Lower(cmds[0]) then [cmds[0]] else []) + Suggested(cmds[1..], text)
  }

  /** A path-like word: one that starts with `.` or with the path separator. */
  predicate PathLike(w: string)
  {
    w != [] && (w[0] == '.' || w[0] == '/')
  }

  /** Verbs are offered when the text has no word, or one word that is not path-like. */
  predicate OffersVerbs(text: string)
  {
    var words := Words(Strip(text));
    words == [] || (|words| == 1 && !PathLike(words[0]))
  }

  /** `TabCompleter.get_completions` up to the file completion, whose results are not modelled. */
  function Completions(text: string): Offer
  {
    Offer(if OffersVerbs(text) then Suggested(Commands, text) else [], Words(Strip(text)) != [])
  }

  /** A name is suggested exactly when it is one of `cmds` that `text` starts, lower-cased. */
  lemma {:induction false} SuggestedIff(cmds: seq<string>, text: string, c: string)
    ensures c in Suggested(cmds, text) <==> c in cmds && Lower(text) <= Lower(c)
  {
    if cmds != [] {
      SuggestedIff(cmds[1..], text, c);
      assert c in cmds <==> c == cmds[0] || c in cmds[1..];
    }
  }

  /**
   * The completer offers a verb exactly when the text offers verbs and the
   * verb starts with the text, lower-cased; file completion follows exactly
   * when the text has a word.
   */
  lemma CompletionsIff(text: string, c: string)
    ensures c in Completions(text).names <==> OffersVerbs(text) && c in Commands && Lower(text) <= Lower(c)
    ensures Completions(text).files <==> exists k :: 0 <= k < |Strip(text)| && Strip(text)[k] !in Whitespace
  {
    SuggestedIff(Commands, text, c);
    WordsNone(Strip(text));
  }

  /** Every verb starts with the empty text. */
  lemma {:induction false} SuggestedAll(cmds: seq<string>)
    ensures Suggested(cmds, "") == cmds
  {
    if cmds != [] {
      SuggestedAll(cmds[1..]);
    }
  }

  /** Text that is empty offers all seven verbs and no file completion. */
  lemma EmptyTextOffersAll()
    ensures Completions("") == Offer(Commands, false)
  {
    SuggestedAll(Commands);
    WordsNone(Strip(""));
  }

  /** Every verb starts with a letter. */
  lemma VerbsStartWithLetters(c: string)
    requires c in Commands
    ensures c != [] && 'a' <= c[0] <= 'z'
  {
  }

  /** No verb is suggested when none starts with the text. */
  lemma {:induction false} SuggestedNone(cmds: seq<string>, text: string)
    requires forall c :: c in cmds ==> !(Lower(text) <= Lower(c))
    ensures Suggested(cmds, text) == []
  {
    if cmds != [] {
      assert cmds[0] in cmds;
      SuggestedNone(cmds[1..], text);
    }
  }

  /** A text starting with a blank is not a prefix of a word starting with a letter, lower-cased. */
  lemma BlankNotPrefix(text: string, c: string)
    requires text != [] && text[0] in Whitespace
    requires c != [] && 'a' <= c[0] <= 'z'
    ensures !(Lower(text) <= Lower(c))
  {
    assert Lower(text)[0] == text[0];
    assert Lower(c)[0] == c[0];
  }

  /** Text made only of blanks offers nothing: no verb starts with a blank, and there is no word to complete. */
  lemma BlankTextOffersNothing(text: string)
    requires text != [] && forall k :: 0 <= k < |text| ==> text[k] in Whitespace
    ensures Completions(text) == Offer([], false)
  {
    StripAll(text, Whitespace);
    WordsNone(Strip(text));
    forall c | c in Commands ensures !(Lower(text) <= Lower(c)) {
      VerbsStartWithLetters(c);
      BlankNotPrefix(text, c);
    }
    SuggestedNone(Commands, text);
  }

  // ---------------------------------------------------------------------
  // The request.

  /** Who a message is from. */
  datatype Role = System | User

  /** How the matches of the reference tokens appear in the first message. */
  datatype Hint =
    | NoHint            // no match: the empty list is formatted in its place
    | Targets(paths: seq<string>)

  /** The content of a message; the first one's free text is left abstract. */
  datatype Content =
    | Situation(cwd: string, home: string, hint: Hint)
    | Instructions(text: string)
    | Typed(text: string)

  datatype Message = Message(role: Role, content: Content)

  /** The hint for the matches `relevant`. */
  function HintFor(relevant: seq<string>): Hint
  {
    if relevant == [] then NoHint else Targets(relevant)
  }

  /** The request for the line `cmd`: the situation, the configured `prompt`, then the line. */
  function Request(cwd: string, home: string, relevant: seq<string>, prompt: string, cmd: string): seq<Message>
  {
    [Message(System, Situation(cwd, home, HintFor(relevant))),
     Message(System, Instructions(prompt)),
     Message(User, Typed(cmd))]
  }

  /**
   * A request has three messages, two from the system and the last from the
   * user holding the line; the second holds the configured prompt; the
   * matches are mentioned exactly when there are any, and then all of them.
   */
  lemma RequestShape(cwd: string, home: string, relevant: seq<string>, prompt: string, cmd: string)
    ensures var r := Request(cwd, home, relevant, prompt, cmd);
            && |r| == 3
            && r[0].role == System && r[1].role == System && r[2].role == User
            && r[1].content == Instructions(prompt)
            && r[2].content == Typed(cmd)
            && r[0].content.Situation? && r[0].content.cwd == cwd && r[0].content.home == home
            && (r[0].content.hint.Targets? <==> relevant != [])
            && (r[0].content.hint.Targets? ==> r[0].content.hint.paths == relevant)
  {
  }
}
