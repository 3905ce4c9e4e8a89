/**
 * The command normaliser `process_cmd`: it strips backticks, turns a leading
 * `cd` or `exit` (in any case) into an effect, and otherwise rewrites alias
 * tokens and joins the tokens again with single spaces.  The directory change
 * and the exit are returned as data instead of being performed.
 */
module Normalizer {
  import opened Text

  /** What a normalised command asks for; an empty `Run` command is not run by the callers. */
  datatype Effect = ChangeDir(path: string) | Exit | Run(command: string)

  /** The configured alias table (`substitutions`), in dictionary order. */
  const Aliases: seq<(string, string)> := [("ls", "ls --color")]

  /**
   * `os.path.expanduser` for the current user: `~` and `~/...` are rewritten
   * against `home`, with trailing slashes of `home` dropped and an empty result
   * read as `/`.  Any other text, `~user` included, is returned unchanged.
   */
  function ExpandUser(p: string, home: string): (r: string)
    ensures r == [] <==> p == []
  {
    if |p| > 0 && p[0] == '~' && (|p| == 1 || p[1] == '/') then
      var h := TrimEnd(home, {'/'}) + p[1..];
      if h == [] then "/" else h
    else p
  }

  /** The directory `cd` goes to when it has no argument. */
  function HomeDir(home: string): string
  {
    ExpandUser("~", home)
  }

  /** One alias pair applied to one token: a case-insensitive match is replaced. */
  function Replace(w: string, pair: (string, string)): string
  {
    if Lower(pair.0) == Lower(w) then pair.1 else w
  }

  /** One alias pair applied to every token (the inner loop of the substitution). */
  function ReplaceAll(ws: seq<string>, pair: (string, string)): (r: seq<string>)
    ensures |r| == |ws|
  {
    seq(|ws|, i requires 0 <= i < |ws| => Replace(ws[i], pair))
  }

  /** The whole substitution: the pairs of `table` are applied in order, each to every token. */
  function Substitute(ws: seq<string>, table: seq<(string, string)>): seq<string>
    decreases |table|
  {
    if table == [] then ws else Substitute(ReplaceAll(ws, table[0]), table[1..])
  }

  /** The pairs of `table` applied in order to a single token. */
  function Resolve(w: string, table: seq<(string, string)>): string
    decreases |table|
  {
    if table == [] then w else Resolve(Replace(w, table[0]), table[1..])
  }

  /** The text `process_cmd` splits: the command without its leading and trailing backticks. */
  function Unquoted(cmd: string): string
  {
    StripChars(cmd, {'`'})
  }

  /** Where `cd` goes: its joined arguments expanded, or the home directory when they are empty. */
  function CdDestination(args: seq<string>, home: string): string
  {
    var target := ExpandUser(Join(args, ' '), home);
    if target == [] then HomeDir(home) else target
  }

  /** `process_cmd(cmd)`, with the effect returned rather than performed. */
  function Normalise(cmd: string, home: string): Effect
  {
    var ws := Split(Unquoted(cmd), ' ');
    var head := Lower(ws[0]);
    if head == "cd" then ChangeDir(CdDestination(ws[1..], home))
    else if head == "exit" then Exit
    else Run(Join(Substitute(ws, Aliases), ' '))
  }

  /** The substitution loop of `process_cmd`, rewriting the token list in place. */
  method SubstituteInPlace(words: array<string>)
    modifies words
    ensures words[..] == Substitute(old(words[..]), Aliases)
  {
    for k := 0 to |Aliases|
      invariant Substitute(words[..], Aliases[k..]) == Substitute(old(words[..]), Aliases)
    {
      var (orig, subst) := Aliases[k];
      ghost var before := words[..];
      for index := 0 to words.Length
        invariant forall j :: 0 <= j < index ==> words[j] == Replace(before[j], Aliases[k])
        invariant forall j :: index <= j < words.Length ==> words[j] == before[j]
      {
        if Lower(orig) == Lower(words[index]) {
          words[index] := subst;
        }
      }
      assert words[..] == ReplaceAll(before, Aliases[k]);
      assert Aliases[k..][1..] == Aliases[k + 1..];
    }
  }

  /** The token list of `process_cmd` copied into an array, rewritten there, and read back. */
  method SubstituteWords(parts: seq<string>) returns (r: seq<string>)
    ensures r == Substitute(parts, Aliases)
  {
    var words := new string[|parts|](i requires 0 <= i < |parts| => parts[i]);
    assert words[..] == parts;
    SubstituteInPlace(words);
    r := words[..];
  }

  /**
   * `process_cmd` as the source runs it: the token list is rewritten in place,
   * one alias pair at a time over every index.
   */
  method ProcessCmd(cmd: string, home: string) returns (e: Effect)
    ensures e == Normalise(cmd, home)
  {
    var parts := Split(Unquoted(cmd), ' ');
    var head := Lower(parts[0]);
    if head == "cd" {
      var target := ExpandUser(Join(parts[1..], ' '), home);
      if target == [] {
        target := HomeDir(home);
      }
      return ChangeDir(target);
    } else if head == "exit" {
      return Exit;
    }
    var words := SubstituteWords(parts);
    e := Run(Join(words, ' '));
  }

  /** The substitution acts on each token separately: every token is resolved through the table on its own. */
  lemma {:induction false} SubstitutePointwise(ws: seq<string>, table: seq<(string, string)>)
    ensures |Substitute(ws, table)| == |ws|
    ensures forall i :: 0 <= i < |ws| ==> Substitute(ws, table)[i] == Resolve(ws[i], table)
    decreases |table|
  {
    if table != [] {
      SubstitutePointwise(ReplaceAll(ws, table[0]), table[1..]);
    }
  }

  /** With the configured table, a token equal to `ls` in any case becomes `ls --color`; every other token is kept. */
  lemma AliasTable(w: string)
    ensures Resolve(w, Aliases) == if Lower(w) == "ls" then "ls --color" else w
  {
    assert Aliases[1..] == [];
  }

  /** Whether no token of `ws` matches an alias key of the configured table. */
  predicate NoAlias(ws: seq<string>)
  {
    forall i :: 0 <= i < |ws| ==> Lower(ws[i]) != "ls"
  }

  /**
   * A command whose first token is neither `cd` nor `exit` and which holds no
   * alias token runs exactly as typed, backticks removed: splitting on single
   * spaces and joining again loses nothing.
   */
  lemma RunUnchanged(cmd: string, home: string)
    requires var ws := Split(Unquoted(cmd), ' '); Lower(ws[0]) != "cd" && Lower(ws[0]) != "exit" && NoAlias(ws)
    ensures Normalise(cmd, home) == Run(Unquoted(cmd))
  {
    var ws := Split(Unquoted(cmd), ' ');
    SubstitutePointwise(ws, Aliases);
    forall i | 0 <= i < |ws| ensures Substitute(ws, Aliases)[i] == ws[i] {
      AliasTable(ws[i]);
    }
    assert Substitute(ws, Aliases) == ws;
    JoinSplit(Unquoted(cmd), ' ');
  }

  /**
   * Otherwise the command run is the tokens, each `ls` (in any case) replaced by
   * `ls --color` and every other token kept, joined with single spaces.
   */
  lemma RunTokens(cmd: string, home: string)
    requires var ws := Split(Unquoted(cmd), ' '); Lower(ws[0]) != "cd" && Lower(ws[0]) != "exit"
    ensures var ws := Split(Unquoted(cmd), ' ');
            exists out: seq<string> ::
              && |out| == |ws|
              && (forall i :: 0 <= i < |ws| ==> out[i] == if Lower(ws[i]) == "ls" then "ls --color" else ws[i])
              && Normalise(cmd, home) == Run(Join(out, ' '))
  {
    var ws := Split(Unquoted(cmd), ' ');
    var out := Substitute(ws, Aliases);
    SubstitutePointwise(ws, Aliases);
    forall i | 0 <= i < |ws| ensures out[i] == if Lower(ws[i]) == "ls" then "ls --color" else ws[i] {
      AliasTable(ws[i]);
    }
    assert Normalise(cmd, home) == Run(Join(out, ' '));
  }

  /**
   * `cd` (in any case) followed by a space and an argument changes to the
   * expanded argument, or to the home directory when the argument is empty:
   * never a command to run.
   */
  lemma CdTarget(verb: string, arg: string, home: string)
    requires Lower(verb) == "cd"
    requires arg == [] || arg[|arg| - 1] != '`'
    ensures Normalise(verb + " " + arg, home) ==
            ChangeDir(if arg == [] then HomeDir(home) else ExpandUser(arg, home))
  {
    var cmd := verb + " " + arg;
    assert |verb| == 2;
    assert LowerChar(verb[0]) == 'c' && LowerChar(verb[1]) == 'd' by {
      assert Lower(verb)[0] == LowerChar(verb[0]) && Lower(verb)[1] == LowerChar(verb[1]);
    }
    assert verb[0] != '`' && verb[0] != ' ' && verb[1] != ' ';
    assert ' ' !in verb by { assert verb == [verb[0], verb[1]]; }
    assert cmd[0] == verb[0] && cmd[|cmd| - 1] != '`';
    StripCharsKeeps(cmd, {'`'});
    SplitAfter(verb, ' ', arg);
    var ws := Split(cmd, ' ');
    assert ws[1..] == Split(arg, ' ');
    JoinSplit(arg, ' ');
  }

  /** A lone `cd` (in any case) goes to the home directory. */
  lemma CdAlone(verb: string, home: string)
    requires Lower(verb) == "cd"
    ensures Normalise(verb, home) == ChangeDir(HomeDir(home))
  {
    assert |verb| == 2;
    assert LowerChar(verb[0]) == 'c' && LowerChar(verb[1]) == 'd' by {
      assert Lower(verb)[0] == LowerChar(verb[0]) && Lower(verb)[1] == LowerChar(verb[1]);
    }
    assert ' ' !in verb && verb[0] != '`' && verb[1] != '`' by { assert verb == [verb[0], verb[1]]; }
    StripCharsKeeps(verb, {'`'});
    SplitNoSep(verb, ' ');
    var ws := Split(Unquoted(verb), ' ');
    assert ws == [verb];
    assert ws[1..] == [];
  }
}
