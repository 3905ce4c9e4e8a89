# aish: a Dafny model of the shell's decision logic

`aish.py` is an interactive shell. A typed line is either run as a shell
command or, while a chat model is connected, sent to the model, and the
command it proposes runs after a series of safety questions. This project
models the sequential logic underneath that I/O and proves properties of it:

- `Normalizer`: `process_cmd`. Leading and trailing backticks are removed, the
  text is split on single spaces, `cd` and `exit` become effects, the `ls`
  alias is applied and the tokens are rejoined.
- `DirListing`: `recursive_list` over an abstract file system, walked
  pre-order to five levels.
- `Resolver`: the `@` target loop. A fragment matches by substring of an
  entry's basename. The model's matches become hints for it; without the
  model the user picks one of the matches.
- `Streaming`: reassembly of the model's streamed reply.
- `Prompts`: `confirm` and `toggle_bool`.
- `SafetyGate`: the checks between the generated command and its run. These
  are the pass-through comparison, the deny-list scan, the root check and
  "execute?".
- `Context`: the environment allow-list, the command-name completion filter
  and the three-message request.
- `Shell`: the main loop.
  - A `Session` class holds `using_ai`, `auto`, `hide_cmd` and the listing
    cache `dir_cache`. It has one method per built-in verb, the `@` loop and
    the command path.
  - Each method is proved against the functions `Step` and `Command`, which
    describe one line. The lemmas about the session are stated on those
    functions.

The outside world is a parameter. A `World` value holds:

- the current and home directories;
- the file system;
- whether a connection attempt succeeds;
- the replies typed at `confirm`, the picks made in the target picker and the
  answers to the gate's questions;
- the configured prompt and the model's stream.

Running a command, changing directory and exiting are returned as an `Effect`
inside the line's `Outcome`; they are not performed. An exception that ends
the line, caught by the loop's handler (aish.py:570-577), becomes `Failed`.
This covers an empty token reaching `word[0]`, the end of input at the `auto`
question, and a cancelled picker. The gate's questions are the one exception:
there the end of input is a missing answer, read as no, so the line ends as
`Gated` with an `Abort` verdict. Either way nothing runs.

Three behaviours of the code are easy to miss:

- Turning automatic mode off leaves command hiding as it is (aish.py:376-377).
  Automatic mode followed by hiding followed by leaving automatic mode gives a
  manual session that still hides (`Shell.HideOutlivesAuto`).
- Turning automatic mode on first asks for confirmation, and hiding is turned
  off whether or not the answer is yes (aish.py:372-375).
- Without the model, the picker is offered for every reference with at least
  one match, even a single one (aish.py:450-464).

## Model

| member | source | states |
|---|---|---|
| Text.JoinSplit | aish.py:470-471 | splitting a line on single spaces and rejoining it gives the line back |
| Normalizer.SubstituteInPlace | aish.py:78-81 | the in-place rewrite of the token array leaves the tokens after every alias pair in order has been applied to every index |
| Normalizer.ProcessCmd | aish.py:57-85 | the imperative `process_cmd` (strip, split, match on the first token, in-place substitution, join) yields the effect `Normalise` describes |
| Normalizer.SubstitutePointwise | aish.py:78-81 | the substitution keeps the number of tokens, and each token becomes what the alias table makes of that token alone |
| Normalizer.AliasTable | aish.py:78-81 | with the configured table, a token equal to `ls` in any case becomes `ls --color` and every other token is kept |
| Normalizer.RunUnchanged | aish.py:57-85 | a command whose first token is neither `cd` nor `exit` (in any case) and has no alias token runs exactly as typed, without its surrounding backticks |
| Normalizer.RunTokens | aish.py:77-85 | otherwise the command run is the tokens, with each `ls` replaced and the others kept, joined with single spaces |
| Normalizer.CdTarget | aish.py:62-72 | `cd` in any case, then a space and an argument, changes to the expanded argument, or to home when the argument is empty; it is never a command to run |
| Normalizer.CdAlone | aish.py:63-72 | a lone `cd` in any case goes to the home directory |
| DirListing.BasenameIsLast | aish.py:443 | `basename` is the suffix after the last `/`: it holds no `/`, and it is preceded by a `/` unless it is the whole path |
| DirListing.Lister.constructor | aish.py:117 | the walk starts with an empty item list and the given depth bound |
| DirListing.Lister.ListItems | aish.py:119-128 | `_list_items` appends exactly the pre-order listing of the directory to `items`; an unreadable directory or a file adds nothing |
| DirListing.RecursiveList | aish.py:106-131 | `recursive_list(root)` returns the listing of the root, or nothing when the root cannot be scanned |
| DirListing.ListingShallow | aish.py:124 | at or beyond the depth bound nothing is descended into: the listing is just the entries |
| DirListing.ParentFirst | aish.py:119-125 | the listing is pre-order: no listed path lies inside a path listed at or after it |
| DirListing.RecursiveListingShape | aish.py:106-131 | every listed path lies inside the root, at most five levels below its entries, and each directory comes before its contents |
| DirListing.BasenameJoin | aish.py:123 | the basename of the path the scan gives an entry is the entry's name |
| Resolver.FindMatches | aish.py:441-449 | the matching loop returns exactly the matches: every item whose basename holds the fragment, as its path with `/` added for a directory, in cache order |
| Resolver.MatchesAppend | aish.py:442-449 | matching distributes over a split of the listing, so matches keep the cache order |
| Resolver.MatchesIff | aish.py:442-449 | a path is among the matches exactly when some listed item has the fragment in its basename and displays as that path |
| Resolver.BareAtMatchesAll | aish.py:443 | a bare `@` matches every listed item, in order |
| Resolver.HitOwnName | aish.py:443 | an entry's item is hit exactly when its own name holds the fragment, a case-sensitive substring test |
| Resolver.NoTargetsIff | aish.py:466-468 | the line is given up for want of targets exactly when it has no empty token, has some `@` token, and no `@` token matches anything |
| Resolver.ResolveWithModel | aish.py:428-468 | with the model the tokens never change. It fails on an empty token, or stops for want of targets, or keeps the line with all matches as relevant paths |
| Resolver.ResolveWithoutModel | aish.py:428-464 | without the model a resolved line keeps every token except the references with matches. Each of those is replaced by one of its own matches: the one the next pick chooses, the picks being taken in token order. The relevant paths are all the matches, and a cancelled pick needs a reference |
| Resolver.NoRefsUntouched | aish.py:432-433 | a line without `@` tokens and without empty tokens is kept as it is, with no relevant paths and no listing |
| Streaming.Reassemble | aish.py:507-527 | the streaming loop yields the in-order concatenation of the non-empty first-choice contents, or nothing when a chunk has no choices or the stream fails |
| Streaming.FragmentsAppend | aish.py:510-513 | collection distributes over a split of the stream: fragments keep the stream's order |
| Streaming.FragmentsNonEmpty | aish.py:511-513 | every collected fragment is non-empty and is the first-choice content of some chunk |
| Streaming.SkipEmpty | aish.py:512 | a chunk whose content is missing or empty changes nothing |
| Streaming.AppendContent | aish.py:512-513 | a chunk with content appends exactly that content to the command |
| Prompts.Confirm | aish.py:34-42 | the `confirm` loop returns the first decisive reply, lower-cased but not stripped, or nothing at the end of input |
| Prompts.AnswerIff | aish.py:35-42 | `confirm` answers yes (or no) exactly when some reply decides that answer and every earlier reply is neither yes nor no |
| Prompts.AnswerNone | aish.py:35-42 | the end of input is reached exactly when no reply is decisive |
| Prompts.DecisionExamples | aish.py:36-40 | `Y`, `YeS` and `No` count; ` y`, `yes ` and the empty reply do not |
| Prompts.ToggleBool | aish.py:44-52 | the result is the other value, with a notice that starts with the description and says "turned on" or "turned off" to match |
| Prompts.ToggleTwice | aish.py:44-52 | toggling twice restores the value, and the two notices differ |
| SafetyGate.ScanUnsafe | aish.py:540-543 | the flag loop is set exactly when some space-separated word, lower-cased, is on the 24-word deny list |
| SafetyGate.AskQuestions | aish.py:537-564 | the questions asked after pass-through (revealing, unsafe, root with `skip_confirm`, "execute?") make the review `Decide` describes |
| SafetyGate.ReviewCommand | aish.py:529-569 | the whole check of a generated command, the `process_cmd` of its run included, gives the review of the gate on the scanned text |
| SafetyGate.PassThroughLaw | aish.py:529-535 | a command equal to the typed line, compared lower-cased (ASCII letters and the Kelvin sign only) and stripped, runs `process_cmd` of itself with no question and is not printed |
| SafetyGate.DecideLaws | aish.py:537-569 | the decision rules below, stated on the booleans after pass-through |
| SafetyGate.GateLaws | aish.py:537-569 | the unsafe question comes first exactly when a word is deny-listed, whatever the mode. The root question comes exactly when the first word is `sudo`/`su` and the unsafe question was passed. "execute?" comes exactly in manual mode without a root request. The command runs exactly when every question asked was answered yes, and the effect is then `process_cmd` of it. Under hiding the command is printed exactly when the unsafe or root question is reached |
| SafetyGate.AutoRunsUnasked | aish.py:562-569 | in automatic mode a command with neither a deny-listed word nor a root request runs with no question |
| SafetyGate.RootSkipsExecute | aish.py:552-564 | a root command is never asked "execute?", even in manual mode |
| SafetyGate.GateGuardsUnsafe | aish.py:539-550 | the gate as written: a command that does not pass through and has a deny-listed word among its space-separated words as generated asks the unsafe question first and runs only on yes |
| SafetyGate.GateGuardsRoot | aish.py:552-560 | the gate as written: a command whose first word as generated is `sudo`/`su` runs only after the root question, and every question asked, was answered yes |
| SafetyGate.BacktickBypass | aish.py:541-567 | for the typed line `delete x` in automatic mode, the generated `` `rm x` `` passes the gate as written with no question and runs `rm x`, though the text run holds the deny-listed `rm` |
| SafetyGate.BypassInAuto | aish.py:541-567 | in automatic mode the generated `` `rm x` `` passes the gate as written with no question and runs `rm x`, whatever the typed line |
| SafetyGate.BypassScan | aish.py:541-553 | the scan of `` `rm x` `` as generated finds neither a deny-listed word nor a root request; the scan of its run text finds `rm` |
| SafetyGate.GateFixedGuardsRun | aish.py:539-550 | with the scans on the text that is run, a command holding a deny-listed word asks the unsafe question first and runs only if it was answered yes |
| SafetyGate.GateFixedGuardsRoot | aish.py:552-560 | likewise a command whose run text starts with `sudo` or `su` runs only after the root question, and every question asked, was answered yes |
| Context.FilterEnv | aish.py:299-302 | the filter loop keeps exactly the allowed variables of the environment, with their values |
| Context.PassedLaws | aish.py:287-302 | the variables shown are the environment's keys that are allowed, with their values; there are at most ten of them, and filtering again changes nothing |
| Context.WordsNone | aish.py:155 | `split()` finds no word exactly when every character is blank |
| Context.SuggestedIff | aish.py:162-164 | a verb is suggested exactly when it is one of the verbs and, lower-cased, starts with the lower-cased text |
| Context.CompletionsIff | aish.py:155-167 | a verb is offered exactly when the text has no word or one word that is not path-like, and the verb starts with the text; file completion follows exactly when the text has a non-blank character |
| Context.EmptyTextOffersAll | aish.py:158-167 | the empty text offers all seven verbs in order and no file completion |
| Context.BlankTextOffersNothing | aish.py:155-167 | text made only of blanks offers no verb and no file completion |
| Context.RequestShape | aish.py:484-497 | the request has three messages: system, system, then user. The second holds the configured prompt and the last holds the line. The first names the directories, and it mentions the matches exactly when there are any |
| Shell.MemoLaws | aish.py:133-140 | a listing is computed only for a directory not yet cached; a cached one is kept whatever the file system now holds; the other directories are untouched; fetching again changes nothing |
| Shell.StepCache | aish.py:428-439 | a line leaves the cache as it was or adds only the current directory's listing; no cached directory is dropped |
| Shell.VerbsAreLocal | aish.py:368-419 | a built-in verb never lists, never runs a command and never asks the model; apart from `auto`, `hide`, `connect` and `disconnect` it leaves the mode alone |
| Shell.HideLaw | aish.py:378-383 | `hide` changes nothing in manual mode and flips command hiding in automatic mode |
| Shell.AutoLaw | aish.py:371-377 | from manual mode, `auto` sets automatic mode to the answer and turns hiding off either way. At the end of input the line is given up with nothing changed. From automatic mode it turns automatic mode off and keeps hiding |
| Shell.ConnectionLaws | aish.py:388-402 | `connect` ends connected exactly when it was connected or the attempt succeeds; `disconnect` ends disconnected; neither touches the other flags |
| Shell.HideOutlivesAuto | aish.py:371-383 | `auto` answered yes, then `hide`, then `auto`, reaches manual mode with hiding still on |
| Shell.CommandMode | aish.py:420-527 | a command line keeps automatic mode and hiding. It stops using the model exactly when the model was in use, the line resolved and the stream failed, and then nothing runs |
| Shell.ModelCommandsAreGated | aish.py:470-569 | while the model is in use a typed command never runs directly. What is reviewed is the model's command, through the gate as written (its scans on the command as generated), and the request is built from the resolved line and its matches |
| Shell.GatedReview | aish.py:499-569 | a resolved line whose stream yields a reply ends with the request built from the line and its matches, and with the review the gate as written gives the reply |
| Shell.DispatchGuardsUnsafe | aish.py:537-550 | in the session, a model command that is not the typed line and has a deny-listed word among its space-separated words as generated asks the unsafe question first and runs only on yes |
| Shell.DispatchGuardsRoot | aish.py:552-560 | in the session, a model command whose first word as generated is `sudo`/`su` runs only after the root question and every question asked were answered yes |
| Shell.DispatchBypass | aish.py:521-567 | in the session, in automatic mode, whatever the typed line, a model reply `` `rm x` `` is reviewed with no question and runs `rm x` |
| Shell.PlainLineRuns | aish.py:470-478 | without the model, a line with no `@` token and no empty token runs `process_cmd` of the line as typed, and the cache is untouched |
| Shell.Session.constructor | aish.py:282-284 | a new session is manual, not hiding, with an empty cache, and connected exactly when the start-up connection succeeded |
| Shell.Session.GetDirList | aish.py:133-140 | `get_dir_list` leaves the cache as `Memo` of the old one and returns the cached listing; no flag changes |
| Shell.Session.ToggleAuto | aish.py:371-377 | the `auto` verb succeeds exactly when `AutoVerb` has a result and then leaves that mode; otherwise nothing changes |
| Shell.Session.ToggleHide | aish.py:378-383 | the `hide` verb leaves the mode `HideVerb` gives and the cache unchanged |
| Shell.Session.Connect | aish.py:388-395 | the `connect` verb leaves the mode `ConnectVerb` gives and the cache unchanged |
| Shell.Session.Disconnect | aish.py:396-402 | the `disconnect` verb leaves the mode `DisconnectVerb` gives and the cache unchanged |
| Shell.Session.ResolveTargets | aish.py:428-468 | the `@` loop, with the listing fetched at the first reference, gives the `Resolve` result against the memoised listing of the directory. The cache changes exactly when a reference was met |
| Shell.Session.AskModel | aish.py:499-527 | the reply is the reassembled stream; a failing stream disconnects the session and nothing else changes |
| Shell.Session.RunCommand | aish.py:420-569 | a non-verb line leaves the mode, the cache and the outcome that `Command` gives, the gate's scans made on the command as generated |
| Shell.Session.Dispatch | aish.py:366-569 | one pass of the main loop leaves the mode, the cache and the outcome that `Step` gives |

## Left out

- The chat service: `ai_connect` and the streaming request (aish.py:87-104, 500-504) are network calls. Whether a connection attempt succeeds and the chunks the stream delivers are inputs.
- Running commands, changing directory and exiting: `subprocess.run`, `os.chdir` and `exit` are returned as an `Effect` in the outcome, not performed. A `Run` of empty text stands for the `if cmd:` guard that runs nothing.
- `os.path.expanduser`: only `~` and `~/…` against an abstract home directory are modelled. `~user` is kept unchanged, as when the user lookup fails.
- The file system: `os.scandir` becomes an abstract tree with a readable flag per directory. Any scan failure gives no entries. The `isdir` test at aish.py:444 uses the flag recorded when the listing was cached, not the live file system, and symbolic links are not modelled.
- The interactive prompts are oracles. `confirm` reads a sequence of typed lines, and running out is the end of input. The picker (aish.py:459-463) takes a sequence of indices, and an index past the matches or an exhausted sequence counts as a cancel. The gate's questions (aish.py:549, 557, 563) take one yes/no per question in the order asked, and a missing answer counts as no, as the end of input aborts the line.
- Configuration: loading and writing the YAML file and `launch_editor` (aish.py:219-276) are file I/O and an external editor; the `settings`/`config` verbs return `EditConfig`. The start-up sequence (aish.py:317-333) is reduced to the constructor's `connected` argument.
- File completion (aish.py:169-217) works on the live file system. The model only says whether it is reached.
- Text output: colours, the help text, the echo of the streamed command when not hiding (aish.py:508-518), the shell prompt (aish.py:356-361) and the notices are not modelled. `revealed` records only the printing of a hidden command before the unsafe or root question.
- The first message's free text: the environment listing, `sys_info`, the date and `os.listdir` (aish.py:487) are reduced to the directories and the matches hint.
- Signals and the loop's exception handler (aish.py:146-148, 570-577): every exception that ends a line is the `Failed` outcome, and the loop is one `Step` per line.
- Case and blanks: `lower()` is modelled for ASCII letters and the Kelvin sign, the only non-ASCII character whose lower case is an ASCII letter. Comparisons against the ASCII words (`y`/`yes`, `n`/`no`, `cd`, `exit`, `ls`, the deny list, `sudo`/`su`) are therefore exact. `strip()` and `isspace()` use Python's set of blank characters written out.
- SafetyGate.PassThroughLaw: the pass-through test (aish.py:529) compares two arbitrary texts, and there other case mappings matter. For example, Python's `lower()` makes `É` and `é` equal, so the source runs such a reply unasked, while the model does not pass it through and asks its questions. Full Unicode case mapping is not modelled.
- Context.Words: stated by `Context.WordsNone` only; the exact words found by `split()` matter to the completer only through whether there are none, one or more.

## Findings

| source | as written | input that shows it | evidently intended | confidence | as-written member | corrected member |
|---|---|---|---|---|---|---|
| aish.py:541-553 | the deny-list and root scans split `ai_cmd` as generated, while `process_cmd` strips its surrounding backticks before running it | typed `delete x`, automatic mode, the model replies `` `rm x` ``: no question is asked and `rm x` runs | scan the text that is run, so a deny-listed or root word always asks first | not executed | SafetyGate.BacktickBypass | SafetyGate.GateFixedGuardsRun |

The session model (`Shell.Command`, `Shell.Session.RunCommand`) uses the gate as written, `SafetyGate.Gate`, and `Shell.DispatchBypass` shows the bypass in one pass of the main loop. The corrected gate is `SafetyGate.GateFixed`, whose scans look at the text that is run; `SafetyGate.GateFixedGuardsRun` and `SafetyGate.GateFixedGuardsRoot` prove its guards.
