/**
 * One pass of the shell's main loop over a typed line, and the session state
 * it keeps between lines: whether the model is in use, automatic execution,
 * command hiding, and the cache of directory listings.  Everything the loop
 * learns from outside (the current directory, the home directory, the file
 * system, whether a connection attempt succeeds, what the user answers or
 * picks, the model's stream) is given as a `World`; every effect on the
 * outside (changing directory, exiting, running a command, opening the
 * editor) is returned as the line's outcome rather than performed.
 */
module Shell {
  import opened Wrappers
  import opened Text
  import opened Normalizer
  import opened DirListing
  import opened Resolver
  import opened Streaming
  import opened Prompts
  import opened SafetyGate
  import opened Context

  /** `dir_cache`: the listing computed for each directory. */
  type Cache = map<string, seq<Item>>

  /** The three session flags: `using_ai`, `auto` and `hide_cmd`. */
  datatype Mode = Mode(usingAi: bool, auto: bool, hideCmd: bool)

  /** What one line meets outside the session. */
  datatype World = World(
    cwd: string,            // the current directory
    home: string,           // the user's home directory
    fs: FileSystem,         // the file system the listing walks
    connects: bool,         // whether a connection attempt succeeds
    replies: seq<string>,   // the lines typed at a `confirm` question
    picks: seq<nat>,        // the choices made in the target picker, by index
    prompt: string,         // the configured system prompt
    stream: Stream,         // the model's reply
    answers: seq<bool>)     // the answers to the gate's questions

  /** How a line ends. */
  datatype Outcome =
    | Idle                  // handled; nothing to do outside
    | Quit                  // `exit`
    | Help                  // the help text is shown
    | EditConfig            // the configuration editor is opened
    | Failed                // the line raised, was interrupted, or lost the model: nothing runs
    | Perform(effect: Effect)
      // `process_cmd`'s effect; a `Run` of the empty text runs nothing
    | Gated(request: seq<Message>, review: Review)
      // the model was asked, and its command went through the gate

  /** The session after a line, and how the line ended. */
  datatype After = After(mode: Mode, cache: Cache, outcome: Outcome)

  /** The name `toggle_bool` reports for `auto`. */
  const AutoName: string := "automatic command execution"

  /** The name `toggle_bool` reports for `hide`. */
  const HideName: string := "command hiding"

  /** `get_dir_list(p)` on the cache: a listing is computed and stored only for a directory not yet cached. */
  function Memo(cache: Cache, p: string, fs: FileSystem): (r: Cache)
    ensures p in r
  {
    if p in cache then cache else cache[p := RecursiveListing(fs, p)]
  }

  /** `auto`: from off, asks first; `None` when the question meets the end of input. */
  function AutoVerb(m: Mode, replies: seq<string>): Option<Mode>
  {
    if !m.auto then
      match Answer(replies)
      case None => None
      case Some(yes) => Some(m.(auto := if yes then ToggleBool(m.auto, AutoName).0 else m.auto, hideCmd := false))
    else Some(m.(auto := ToggleBool(m.auto, AutoName).0))
  }

  /** `hide`: only in automatic mode. */
  function HideVerb(m: Mode): Mode
  {
    if !m.auto then m else m.(hideCmd := ToggleBool(m.hideCmd, HideName).0)
  }

  /** `connect`: only when not connected; the model is in use if the attempt succeeds. */
  function ConnectVerb(m: Mode, connects: bool): Mode
  {
    if m.usingAi then m else if connects then m.(usingAi := true) else m
  }

  /** `disconnect`: only when connected. */
  function DisconnectVerb(m: Mode): Mode
  {
    if !m.usingAi then m else m.(usingAi := false)
  }

  /** A line that is not a built-in verb: resolved, then run, or sent to the model and gated. */
  function Command(m: Mode, cache: Cache, line: string, w: World): After
  {
    var tree := Memo(cache, w.cwd, w.fs)[w.cwd];
    var r := Resolver.Resolve(Split(line, ' '), tree, m.usingAi, w.picks);
    var c := if Activated(r) then Memo(cache, w.cwd, w.fs) else cache;
    match r
    case EmptyToken(_) => After(m, c, Failed)
    case PickCancelled => After(m, c, Failed)
    case NoTargets => After(m, c, Idle)
    case Resolved(ts, rel, _) =>
      var cmd := Join(ts, ' ');
      if !m.usingAi then After(m, c, Perform(Normalise(cmd, w.home)))
      else
        match Reassembled(w.stream)
        case None => After(m.(usingAi := false), c, Failed)
        case Some(aiCmd) =>
          After(m, c, Gated(Request(w.cwd, w.home, rel, w.prompt, cmd),
                            Gate(cmd, aiCmd, m.auto, m.hideCmd, w.answers, w.home)))
  }

  /** The built-in verbs, matched exactly. */
  predicate IsVerb(line: string)
  {
    line in {"exit", "auto", "hide", "settings", "config", "connect", "disconnect", "help", ""}
  }

  /** One pass of the main loop over the typed line `line`. */
  function Step(m: Mode, cache: Cache, line: string, w: World): After
  {
    if line == "exit" then After(m, cache, Quit)
    else if line == "auto" then
      match AutoVerb(m, w.replies)
      case None => After(m, cache, Failed)
      case Some(m') => After(m', cache, Idle)
    else if line == "hide" then After(HideVerb(m), cache, Idle)
    else if line == "settings" || line == "config" then After(m, cache, EditConfig)
    else if line == "connect" then After(ConnectVerb(m, w.connects), cache, Idle)
    else if line == "disconnect" then After(DisconnectVerb(m), cache, Idle)
    else if line == "help" then After(m, cache, Help)
    else if line == "" then After(m, cache, Idle)
    else
      var parts := Split(line, ' ');
      if |parts| == 1 && parts[0] == "cd" then After(m, cache, Perform(ChangeDir(HomeDir(w.home))))
      else Command(m, cache, line, w)
  }

  // ---------------------------------------------------------------------
  // Properties of one line.

  /**
   * A listing is computed at most once per directory: a cached one is kept
   * whatever the file system now holds, a missing one is the walk of the
   * directory, and the other directories are untouched.
   */
  lemma MemoLaws(cache: Cache, p: string, fs: FileSystem, fs2: FileSystem)
    ensures Memo(cache, p, fs)[p] == if p in cache then cache[p] else RecursiveListing(fs, p)
    ensures forall q :: q != p ==> (q in Memo(cache, p, fs) <==> q in cache)
    ensures forall q :: q != p && q in cache ==> Memo(cache, p, fs)[q] == cache[q]
    ensures Memo(Memo(cache, p, fs), p, fs2) == Memo(cache, p, fs)
  {
  }

  /** A line leaves the cache alone or adds the listing of the current directory, and it changes nothing else about it. */
  lemma StepCache(m: Mode, cache: Cache, line: string, w: World)
    ensures var c := Step(m, cache, line, w).cache;
            c == cache || c == Memo(cache, w.cwd, w.fs)
    ensures cache.Keys <= Step(m, cache, line, w).cache.Keys
  {
  }

  /** A built-in verb never asks the model, never runs a command and never lists a directory. */
  lemma VerbsAreLocal(m: Mode, cache: Cache, line: string, w: World)
    requires IsVerb(line)
    ensures var a := Step(m, cache, line, w);
            a.cache == cache && !a.outcome.Gated? && !a.outcome.Perform?
            && (line != "auto" && line != "hide" && line != "connect" && line != "disconnect" ==> a.mode == m)
  {
  }

  /** `hide` does nothing outside automatic mode, and flips command hiding inside it. */
  lemma HideLaw(m: Mode, cache: Cache, w: World)
    ensures var a := Step(m, cache, "hide", w);
            a.outcome == Idle && a.mode.auto == m.auto && a.mode.usingAi == m.usingAi
            && (a.mode.hideCmd <==> (if m.auto then !m.hideCmd else m.hideCmd))
  {
  }

  /**
   * `auto` from manual mode asks first: a yes turns automatic mode on, a no
   * leaves it off, and either way command hiding is turned off; the end of
   * input gives the line up with nothing changed.  From automatic mode it
   * turns automatic mode off without asking and keeps command hiding.
   */
  lemma AutoLaw(m: Mode, cache: Cache, w: World)
    ensures var a := Step(m, cache, "auto", w);
            a.cache == cache && a.mode.usingAi == m.usingAi
            && (!m.auto && Answer(w.replies) == None ==> a.outcome == Failed && a.mode == m)
            && (!m.auto && Answer(w.replies).Some? ==>
                  a.outcome == Idle && a.mode.auto == Answer(w.replies).value && !a.mode.hideCmd)
            && (m.auto ==> a.outcome == Idle && !a.mode.auto && a.mode.hideCmd == m.hideCmd)
  {
  }

  /** `connect` and `disconnect` set only whether the model is in use. */
  lemma ConnectionLaws(m: Mode, cache: Cache, w: World)
    ensures Step(m, cache, "connect", w).mode == m.(usingAi := m.usingAi || w.connects)
    ensures Step(m, cache, "disconnect", w).mode == m.(usingAi := false)
  {
  }

  /**
   * Command hiding survives leaving automatic mode: `auto` answered yes,
   * then `hide`, then `auto` gives a manual session that still hides.
   */
  lemma HideOutlivesAuto(u: bool, cache: Cache, w: World)
    requires Answer(w.replies) == Some(true)
    ensures var a1 := Step(Mode(u, false, false), cache, "auto", w);
            var a2 := Step(a1.mode, a1.cache, "hide", w);
            var a3 := Step(a2.mode, a2.cache, "auto", w);
            a3.mode == Mode(u, false, true)
  {
  }

  /** Whether `line` reaches the target resolution: neither a verb nor a lone `cd`. */
  predicate IsCommand(line: string)
  {
    !IsVerb(line) && !(|Split(line, ' ')| == 1 && Split(line, ' ')[0] == "cd")
  }

  /** A command line goes to `Command`. */
  lemma CommandStep(m: Mode, cache: Cache, line: string, w: World)
    requires IsCommand(line)
    ensures Step(m, cache, line, w) == Command(m, cache, line, w)
  {
  }

  /** The resolution of a command line against the listing its first reference would see. */
  function ResolutionOf(cache: Cache, line: string, w: World, usingAi: bool): Resolution
  {
    Resolver.Resolve(Split(line, ' '), Memo(cache, w.cwd, w.fs)[w.cwd], usingAi, w.picks)
  }

  /**
   * A command line keeps automatic mode and command hiding; it stops using
   * the model only when the model's stream fails, and then nothing runs.
   */
  lemma CommandMode(m: Mode, cache: Cache, line: string, w: World)
    requires IsCommand(line)
    ensures var a := Step(m, cache, line, w);
            a.mode.auto == m.auto && a.mode.hideCmd == m.hideCmd
            && (a.mode.usingAi <==>
                  m.usingAi && !(ResolutionOf(cache, line, w, true).Resolved? && Reassembled(w.stream).None?))
            && (a.mode.usingAi != m.usingAi ==> a.outcome == Failed)
  {
    CommandStep(m, cache, line, w);
  }

  /**
   * While the model is in use no command runs straight from the typed line:
   * it is the model's command that is reviewed, with the request built from
   * the line and the matches.
   */
  lemma ModelCommandsAreGated(m: Mode, cache: Cache, line: string, w: World)
    requires m.usingAi && IsCommand(line)
    ensures var a := Step(m, cache, line, w);
            !a.outcome.Perform?
            && (a.outcome.Gated? ==>
                  var r := ResolutionOf(cache, line, w, true);
                  && r.Resolved? && Reassembled(w.stream).Some?
                  && a.outcome.request == Request(w.cwd, w.home, r.relevant, w.prompt, Join(r.tokens, ' '))
                  && a.outcome.review == Gate(Join(r.tokens, ' '), Reassembled(w.stream).value,
                                              m.auto, m.hideCmd, w.answers, w.home))
  {
    CommandStep(m, cache, line, w);
  }

  /** A resolved line whose stream gives a reply ends with that reply reviewed by the gate as written. */
  lemma GatedReview(m: Mode, cache: Cache, line: string, w: World,
                    ts: seq<string>, rel: seq<string>, act: bool, aiCmd: string)
    requires m.usingAi && IsCommand(line)
    requires ResolutionOf(cache, line, w, true) == Resolved(ts, rel, act)
    requires Reassembled(w.stream) == Some(aiCmd)
    ensures Step(m, cache, line, w).outcome ==
            Gated(Request(w.cwd, w.home, rel, w.prompt, Join(ts, ' ')),
                  Gate(Join(ts, ' '), aiCmd, m.auto, m.hideCmd, w.answers, w.home))
  {
    CommandStep(m, cache, line, w);
  }

  /**
   * The model's command runs only past the unsafe question when one of its
   * words, as generated, is deny-listed, unless it is the typed line itself.
   * A word joined to a backtick is not seen (`DispatchBypass`).
   */
  lemma DispatchGuardsUnsafe(m: Mode, cache: Cache, line: string, w: World,
                             ts: seq<string>, rel: seq<string>, act: bool, aiCmd: string)
    requires m.usingAi && IsCommand(line)
    requires ResolutionOf(cache, line, w, true) == Resolved(ts, rel, act)
    requires Reassembled(w.stream) == Some(aiCmd)
    requires !PassThrough(Join(ts, ' '), aiCmd)
    requires Unsafe(aiCmd)
    ensures var a := Step(m, cache, line, w);
            && a.outcome.Gated? && |a.outcome.review.prompts| > 0
            && a.outcome.review.prompts[0] == UnsafePrompt
            && (a.outcome.review.verdict.Execute? ==> Reply(w.answers, 0))
  {
    GatedReview(m, cache, line, w, ts, rel, act, aiCmd);
    GateGuardsUnsafe(Join(ts, ' '), aiCmd, m.auto, m.hideCmd, w.answers, w.home);
  }

  /**
   * The model's command whose first word, as generated, is `sudo` or `su`
   * runs only past the root question, whatever automatic mode says.
   */
  lemma DispatchGuardsRoot(m: Mode, cache: Cache, line: string, w: World,
                           ts: seq<string>, rel: seq<string>, act: bool, aiCmd: string)
    requires m.usingAi && IsCommand(line)
    requires ResolutionOf(cache, line, w, true) == Resolved(ts, rel, act)
    requires Reassembled(w.stream) == Some(aiCmd)
    requires !PassThrough(Join(ts, ' '), aiCmd)
    requires Lower(Split(aiCmd, ' ')[0]) in RootVerbs
    ensures var a := Step(m, cache, line, w);
            && a.outcome.Gated?
            && (a.outcome.review.verdict.Execute? ==>
                  RootPrompt in a.outcome.review.prompts && AllYes(a.outcome.review.prompts, w.answers))
  {
    GatedReview(m, cache, line, w, ts, rel, act, aiCmd);
    GateGuardsRoot(Join(ts, ' '), aiCmd, m.auto, m.hideCmd, w.answers, w.home);
  }

  /**
   * In the session, whatever the typed line, a model reply `` `rm x` `` in
   * automatic mode runs `rm x` with no question asked.
   */
  lemma DispatchBypass(m: Mode, cache: Cache, line: string, w: World,
                       ts: seq<string>, rel: seq<string>, act: bool, aiCmd: string)
    requires m.usingAi && m.auto && IsCommand(line)
    requires ResolutionOf(cache, line, w, true) == Resolved(ts, rel, act)
    requires Reassembled(w.stream) == Some(aiCmd) && aiCmd == "`rm x`"
    ensures Step(m, cache, line, w).outcome ==
            Gated(Request(w.cwd, w.home, rel, w.prompt, Join(ts, ' ')), Review([], false, Execute(Run("rm x"))))
  {
    GatedReview(m, cache, line, w, ts, rel, act, aiCmd);
    BypassInAuto(Join(ts, ' '), aiCmd, m.hideCmd, w.answers, w.home);
  }

  /**
   * Without the model, a command line with no `@` token and no empty token
   * is run as typed, after alias and `~` substitution, and lists nothing.
   */
  lemma PlainLineRuns(m: Mode, cache: Cache, line: string, w: World)
    requires !m.usingAi && IsCommand(line)
    requires NoEmpty(Split(line, ' ')) && !HasRef(Split(line, ' '))
    ensures Step(m, cache, line, w) == After(m, cache, Perform(Normalise(line, w.home)))
  {
    CommandStep(m, cache, line, w);
    NoRefsUntouched(Split(line, ' '), Memo(cache, w.cwd, w.fs)[w.cwd], false, w.picks);
    JoinSplit(line, ' ');
  }

  /** The shell's session: its flags and its listing cache. */
  class Session {
    var usingAi: bool
    var auto: bool
    var hideCmd: bool
    var dirCache: Cache

    /** A session after start-up, connected when the first connection attempt succeeded. */
    constructor (connected: bool)
      ensures usingAi == connected && !auto && !hideCmd && dirCache == map[]
    {
      usingAi := connected;
      auto := false;
      hideCmd := false;
      dirCache := map[];
    }

    /** The flags of the session. */
    function ModeOf(): Mode
      reads this
    {
      Mode(usingAi, auto, hideCmd)
    }

    /** `get_dir_list(path)`. */
    method GetDirList(path: string, fs: FileSystem) returns (items: seq<Item>)
      modifies this
      ensures dirCache == Memo(old(dirCache), path, fs)
      ensures items == dirCache[path]
      ensures ModeOf() == old(ModeOf())
    {
      if path !in dirCache {
        var listing := RecursiveList(fs, path);
        dirCache := dirCache[path := listing];
      }
      items := dirCache[path];
    }

    /** The `auto` verb; `false` when the question meets the end of input and the line is given up. */
    method ToggleAuto(replies: seq<string>) returns (ok: bool)
      modifies this
      ensures ok <==> AutoVerb(old(ModeOf()), replies).Some?
      ensures ModeOf() == if ok then AutoVerb(old(ModeOf()), replies).value else old(ModeOf())
      ensures dirCache == old(dirCache)
    {
      if !auto {
        var answer := Confirm(replies);
        if answer.None? {
          return false;
        }
        if answer.value {
          auto := ToggleBool(auto, AutoName).0;
        }
        hideCmd := false;
      } else {
        auto := ToggleBool(auto, AutoName).0;
      }
      ok := true;
    }

    /** The `hide` verb. */
    method ToggleHide()
      modifies this
      ensures ModeOf() == HideVerb(old(ModeOf())) && dirCache == old(dirCache)
    {
      if !auto {
        return;
      }
      hideCmd := ToggleBool(hideCmd, HideName).0;
    }

    /** The `connect` verb. */
    method Connect(connects: bool)
      modifies this
      ensures ModeOf() == ConnectVerb(old(ModeOf()), connects) && dirCache == old(dirCache)
    {
      if usingAi {
        return;
      }
      if connects {
        usingAi := true;
      }
    }

    /** The `disconnect` verb. */
    method Disconnect()
      modifies this
      ensures ModeOf() == DisconnectVerb(old(ModeOf())) && dirCache == old(dirCache)
    {
      if !usingAi {
        return;
      }
      usingAi := false;
    }

    /**
     * The `@` loop over the tokens `ws`: the listing of `cwd` is fetched at
     * the first reference token, each reference is matched against it, and
     * without the model each reference with matches is replaced by a pick.
     */
    method ResolveTargets(ws: seq<string>, cwd: string, fs: FileSystem, picks: seq<nat>) returns (r: Resolution)
      modifies this
      ensures r == Resolver.Resolve(ws, Memo(old(dirCache), cwd, fs)[cwd], usingAi, picks)
      ensures dirCache == if Activated(r) then Memo(old(dirCache), cwd, fs) else old(dirCache)
      ensures ModeOf() == old(ModeOf())
    {
      ghost var tree := Memo(dirCache, cwd, fs)[cwd];
      ghost var cache0 := dirCache;
      var model := usingAi;
      var words := ws;
      var activated := false;
      var dirTree: seq<Item> := [];
      var relevant: seq<string> := [];
      var rest := picks;
      var i := 0;
      while i < |words|
        invariant 0 <= i <= |words|
        invariant ResolveFrom(words, i, tree, model, rest, relevant, activated) == Resolver.Resolve(ws, tree, model, picks)
        invariant activated ==> dirCache == Memo(cache0, cwd, fs) && dirTree == tree
        invariant !activated ==> dirCache == cache0 && dirTree == []
        invariant ModeOf() == old(ModeOf()) && model == usingAi
        decreases |words| - i
      {
        var word := words[i];
        if word == [] {
          return EmptyToken(activated);
        }
        if word[0] == '@' {
          activated := true;
          if dirTree == [] {
            dirTree := GetDirList(cwd, fs);
          }
          var found := FindMatches(word[1..], dirTree);
          relevant := relevant + found;
          if found != [] && !model {
            if rest == [] || rest[0] >= |found| {
              return PickCancelled;
            }
            words := words[i := found[rest[0]]];
            rest := rest[1..];
          }
        }
        i := i + 1;
      }
      if activated && relevant == [] {
        return NoTargets;
      }
      r := Resolved(words, relevant, activated);
    }

    /** The model's reply to a request; a failing stream disconnects the session. */
    method AskModel(stream: Stream) returns (reply: Option<string>)
      modifies this
      ensures reply == Reassembled(stream)
      ensures ModeOf() == if reply.None? then old(ModeOf()).(usingAi := false) else old(ModeOf())
      ensures dirCache == old(dirCache)
    {
      reply := Reassemble(stream);
      if reply.None? {
        usingAi := false;
      }
    }

    /** A line that is not a built-in verb. */
    method RunCommand(line: string, w: World) returns (outcome: Outcome)
      modifies this
      ensures After(ModeOf(), dirCache, outcome) == Command(old(ModeOf()), old(dirCache), line, w)
    {
      var r := ResolveTargets(Split(line, ' '), w.cwd, w.fs, w.picks);
      if r.EmptyToken? || r.PickCancelled? {
        return Failed;
      }
      if r.NoTargets? {
        return Idle;
      }
      var cmd := Join(r.tokens, ' ');
      if !usingAi {
        var e := ProcessCmd(cmd, w.home);
        return Perform(e);
      }
      var request := Request(w.cwd, w.home, r.relevant, w.prompt, cmd);
      var reply := AskModel(w.stream);
      if reply.None? {
        return Failed;
      }
      var aiCmd := reply.value;
      var review := ReviewCommand(cmd, aiCmd, aiCmd, auto, hideCmd, w.answers, w.home);
      outcome := Gated(request, review);
    }

    /** One pass of the main loop over the typed line `line`. */
    method Dispatch(line: string, w: World) returns (outcome: Outcome)
      modifies this
      ensures After(ModeOf(), dirCache, outcome) == Step(old(ModeOf()), old(dirCache), line, w)
    {
      if line == "exit" {
        return Quit;
      } else if line == "auto" {
        var ok := ToggleAuto(w.replies);
        return if ok then Idle else Failed;
      } else if line == "hide" {
        ToggleHide();
        return Idle;
      } else if line == "settings" || line == "config" {
        return EditConfig;
      } else if line == "connect" {
        Connect(w.connects);
        return Idle;
      } else if line == "disconnect" {
        Disconnect();
        return Idle;
      } else if line == "help" {
        return Help;
      } else if line == "" {
        return Idle;
      }
      var parts := Split(line, ' ');
      if |parts| == 1 && parts[0] == "cd" {
        return Perform(ChangeDir(HomeDir(w.home)));
      }
      outcome := RunCommand(line, w);
    }
  }
}
