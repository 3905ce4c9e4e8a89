/**
 * The `@` reference resolver of the main loop.  Every token that starts with
 * `@` is looked up in the cached listing of the current directory: the items
 * whose basename contains the rest of the token are its matches, directories
 * shown with a trailing `/`.  All matches are collected as the relevant paths;
 * without the model the user picks one match and it replaces the token.  An
 * empty token makes the line fail, as indexing it raises.
 */
module Resolver {
  import opened Text
  import opened DirListing

  /** How an item is offered: a directory gets a trailing `/`. */
  function Display(it: Item): (r: string)
    ensures it.path <= r
    ensures r == it.path || (it.isDir && r == it.path + "/")
  {
    if it.isDir then it.path + "/" else it.path
  }

  /** `frag in os.path.basename(item)`. */
  predicate Hit(frag: string, it: Item)
  {
    Contains(Basename(it.path), frag)
  }

  /** The matches for fragment `frag` in the listing `tree`, in listing order. */
  function Matches(frag: string, tree: seq<Item>): seq<string>
  {
    if tree == [] then []
    else
      var last := tree[|tree| - 1];
      Matches(frag, tree[..|tree| - 1]) + (if Hit(frag, last) then [Display(last)] else [])
  }

  /** The match loop over the cached listing, appending each hit to the found items. */
  method FindMatches(frag: string, tree: seq<Item>) returns (found: seq<string>)
    ensures found == Matches(frag, tree)
  {
    found := [];
    for i := 0 to |tree|
      invariant found == Matches(frag, tree[..i])
    {
      var item := tree[i];
      assert tree[..i + 1][..i] == tree[..i];
      if Contains(Basename(item.path), frag) {
        found := found + [Display(item)];
      }
    }
    assert tree[..|tree|] == tree;
  }

  /** Matching distributes over a split of the listing: matches keep the listing's order. */
  lemma {:induction false} MatchesAppend(frag: string, a: seq<Item>, b: seq<Item>)
    ensures Matches(frag, a + b) == Matches(frag, a) + Matches(frag, b)
    decreases |b|
  {
    if b == [] {
      assert a + b == a;
    } else {
      var c := a + b;
      assert c[..|c| - 1] == a + b[..|b| - 1];
      assert c[|c| - 1] == b[|b| - 1];
      MatchesAppend(frag, a, b[..|b| - 1]);
    }
  }

  /** Every match is the display form of an item whose basename contains the fragment. */
  lemma {:induction false} MatchesSound(frag: string, tree: seq<Item>, s: string)
    requires s in Matches(frag, tree)
    ensures exists k :: 0 <= k < |tree| && Hit(frag, tree[k]) && s == Display(tree[k])
  {
    var init := tree[..|tree| - 1];
    var last := tree[|tree| - 1];
    var g := Matches(frag, init);
    assert Matches(frag, tree) == g + (if Hit(frag, last) then [Display(last)] else []);
    if s in g {
      MatchesSound(frag, init, s);
      var k :| 0 <= k < |init| && Hit(frag, init[k]) && s == Display(init[k]);
      assert tree[k] == init[k];
    } else {
      assert Hit(frag, tree[|tree| - 1]) && s == Display(tree[|tree| - 1]);
    }
  }

  /** The display form of every item whose basename contains the fragment is a match. */
  lemma {:induction false} MatchesComplete(frag: string, tree: seq<Item>, k: nat)
    requires k < |tree| && Hit(frag, tree[k])
    ensures Display(tree[k]) in Matches(frag, tree)
  {
    var init := tree[..|tree| - 1];
    var last := tree[|tree| - 1];
    var g := Matches(frag, init);
    assert Matches(frag, tree) == g + (if Hit(frag, last) then [Display(last)] else []);
    if k < |init| {
      assert init[k] == tree[k];
      MatchesComplete(frag, init, k);
    }
  }

  /** A string is a match exactly when it is the display form of an item whose basename contains the fragment. */
  lemma MatchesIff(frag: string, tree: seq<Item>, s: string)
    ensures s in Matches(frag, tree) <==> exists k :: 0 <= k < |tree| && Hit(frag, tree[k]) && s == Display(tree[k])
  {
    if s in Matches(frag, tree) {
      MatchesSound(frag, tree, s);
    }
    if exists k :: 0 <= k < |tree| && Hit(frag, tree[k]) && s == Display(tree[k]) {
      var k :| 0 <= k < |tree| && Hit(frag, tree[k]) && s == Display(tree[k]);
      MatchesComplete(frag, tree, k);
    }
  }

  /** A bare `@` (the empty fragment) matches every item of the listing, in order. */
  lemma {:induction false} BareAtMatchesAll(tree: seq<Item>)
    ensures |Matches("", tree)| == |tree|
    ensures forall i :: 0 <= i < |tree| ==> Matches("", tree)[i] == Display(tree[i])
  {
    if tree != [] {
      var init := tree[..|tree| - 1];
      var last := tree[|tree| - 1];
      BareAtMatchesAll(init);
      ContainsEmpty(Basename(last.path));
      var f := Matches("", tree);
      var g := Matches("", init);
      assert f == g + [Display(last)];
      forall i | 0 <= i < |tree| ensures f[i] == Display(tree[i]) {
        if i < |init| {
          assert f[i] == g[i];
          assert init[i] == tree[i];
        }
      }
    }
  }

  /** For the item of entry `n` listed in `q`, the fragment is matched against the entry's own name. */
  lemma HitOwnName(frag: string, q: string, e: Node)
    requires ValidName(e.name)
    ensures Hit(frag, ItemOf(q, e)) <==> Contains(e.name, frag)
  {
    BasenameJoin(q, e.name);
  }

  // ---------------------------------------------------------------------
  // The resolution loop.

  /** How the token loop ends. */
  datatype Resolution =
    | Resolved(tokens: seq<string>, relevant: seq<string>, activated: bool)
      // every token seen: the tokens after picking, all matches, whether any `@` token was seen
    | NoTargets
      // some `@` token was seen, and no token matched anything
    | EmptyToken(activated: bool)
      // an empty token was reached: the line fails
    | PickCancelled
      // the match picker was cancelled: the line is interrupted

  /** Whether the loop reached an `@` token, and so fetched the listing into the cache. */
  predicate Activated(r: Resolution)
  {
    match r
    case Resolved(_, _, a) => a
    case NoTargets => true
    case EmptyToken(a) => a
    case PickCancelled => true
  }

  /** A token the loop treats as a reference. */
  predicate IsRef(w: string)
  {
    w != [] && w[0] == '@'
  }

  /**
   * The loop from token `i` on, with the matches collected so far and
   * whether an `@` token has been seen.  Without the model each token with
   * matches is replaced by the pick the user makes, the next index of
   * `picks`; a missing or out-of-range pick is a cancelled picker.
   */
  function ResolveFrom(ws: seq<string>, i: nat, tree: seq<Item>, usingAi: bool, picks: seq<nat>,
                       relevant: seq<string>, activated: bool): Resolution
    requires i <= |ws|
    decreases |ws| - i
  {
    if i == |ws| then
      if activated && relevant == [] then NoTargets else Resolved(ws, relevant, activated)
    else if ws[i] == [] then EmptyToken(activated)
    else if ws[i][0] != '@' then ResolveFrom(ws, i + 1, tree, usingAi, picks, relevant, activated)
    else
      var found := Matches(ws[i][1..], tree);
      if found == [] || usingAi then ResolveFrom(ws, i + 1, tree, usingAi, picks, relevant + found, true)
      else if picks == [] || picks[0] >= |found| then PickCancelled
      else ResolveFrom(ws[i := found[picks[0]]], i + 1, tree, usingAi, picks[1..], relevant + found, true)
  }

  /** The loop over the tokens of a line, against the listing `tree` of the current directory. */
  function Resolve(ws: seq<string>, tree: seq<Item>, usingAi: bool, picks: seq<nat>): Resolution
  {
    ResolveFrom(ws, 0, tree, usingAi, picks, [], false)
  }

  /** No token from `i` on is empty. */
  predicate NoEmptyFrom(ws: seq<string>, i: nat)
  {
    forall k :: i <= k < |ws| ==> ws[k] != []
  }

  /** Some token from `i` on is a reference. */
  predicate HasRefFrom(ws: seq<string>, i: nat)
  {
    exists k :: i <= k < |ws| && IsRef(ws[k])
  }

  /** The matches of the reference tokens from `i` on, in token order. */
  function RelevantFrom(ws: seq<string>, i: nat, tree: seq<Item>): seq<string>
    requires i <= |ws|
    decreases |ws| - i
  {
    if i == |ws| then []
    else (if IsRef(ws[i]) then Matches(ws[i][1..], tree) else []) + RelevantFrom(ws, i + 1, tree)
  }

  /** A reference with matches: without the model the user picks one of them for it. */
  predicate Pickable(w: string, tree: seq<Item>)
  {
    IsRef(w) && Matches(w[1..], tree) != []
  }

  /**
   * Token `t` is what the loop leaves in place of `w`: without the model a
   * reference with matches becomes one of its matches; every other token is
   * kept.
   */
  predicate Replaced(w: string, t: string, tree: seq<Item>, usingAi: bool)
  {
    if !usingAi && Pickable(w, tree) then t in Matches(w[1..], tree) else t == w
  }

  /** How many picks the tokens from `i` up to `k` consume: one per reference with matches. */
  function PicksBefore(ws: seq<string>, i: nat, k: nat, tree: seq<Item>): nat
    requires i <= k <= |ws|
    decreases k - i
  {
    if i == k then 0 else (if Pickable(ws[i], tree) then 1 else 0) + PicksBefore(ws, i + 1, k, tree)
  }

  /**
   * Each reference with matches from token `i` on is replaced in `ts` by the
   * match the user picked for it, the picks being taken in token order.
   */
  predicate PickedFrom(ws: seq<string>, i: nat, tree: seq<Item>, picks: seq<nat>, ts: seq<string>)
    requires i <= |ws| == |ts|
  {
    forall k :: i <= k < |ws| && Pickable(ws[k], tree) ==>
      var c := PicksBefore(ws, i, k, tree);
      c < |picks| && picks[c] < |Matches(ws[k][1..], tree)| && ts[k] == Matches(ws[k][1..], tree)[picks[c]]
  }

  /** Rewriting a token leaves the later tokens' matches unchanged. */
  lemma {:induction false} RelevantFromUpdate(ws: seq<string>, i: nat, j: nat, x: string, tree: seq<Item>)
    requires j < i <= |ws|
    ensures RelevantFrom(ws[j := x], i, tree) == RelevantFrom(ws, i, tree)
    decreases |ws| - i
  {
    if i < |ws| {
      RelevantFromUpdate(ws, i + 1, j, x, tree);
    }
  }

  /** Whether the references are seen from token `i` on: at `i` itself or later. */
  lemma HasRefStep(ws: seq<string>, i: nat)
    requires i < |ws|
    ensures HasRefFrom(ws, i) <==> IsRef(ws[i]) || HasRefFrom(ws, i + 1)
  {
    if HasRefFrom(ws, i) {
      var k :| i <= k < |ws| && IsRef(ws[k]);
      if k != i {
        assert HasRefFrom(ws, i + 1);
      }
    }
    if HasRefFrom(ws, i + 1) {
      var k :| i + 1 <= k < |ws| && IsRef(ws[k]);
      assert i <= k;
    }
  }

  /** What an ending `r` of the loop from token `i` says about the tokens. */
  predicate Explains(ws: seq<string>, i: nat, tree: seq<Item>, usingAi: bool,
                     relevant: seq<string>, activated: bool, r: Resolution)
    requires i <= |ws|
  {
    match r
    case Resolved(ts, rel, act) =>
      && NoEmptyFrom(ws, i)
      && act == (activated || HasRefFrom(ws, i))
      && rel == relevant + RelevantFrom(ws, i, tree)
      && !(act && rel == [])
      && |ts| == |ws| && ts[..i] == ws[..i]
      && (forall k :: i <= k < |ws| ==> Replaced(ws[k], ts[k], tree, usingAi))
    case NoTargets =>
      NoEmptyFrom(ws, i) && (activated || HasRefFrom(ws, i)) && relevant + RelevantFrom(ws, i, tree) == []
    case EmptyToken(_) => !NoEmptyFrom(ws, i)
    case PickCancelled => !usingAi && HasRefFrom(ws, i)
  }

  /** A token that is not a reference is skipped. */
  lemma ExplainsSkip(ws: seq<string>, i: nat, tree: seq<Item>, usingAi: bool,
                     relevant: seq<string>, activated: bool, r: Resolution)
    requires i < |ws| && ws[i] != [] && !IsRef(ws[i])
    requires Explains(ws, i + 1, tree, usingAi, relevant, activated, r)
    ensures Explains(ws, i, tree, usingAi, relevant, activated, r)
  {
    HasRefStep(ws, i);
    assert RelevantFrom(ws, i, tree) == RelevantFrom(ws, i + 1, tree);
    if r.Resolved? {
      assert r.tokens[..i + 1][..i] == r.tokens[..i];
    }
  }

  /** A reference whose matches are collected, the token kept. */
  lemma ExplainsKeep(ws: seq<string>, i: nat, tree: seq<Item>, usingAi: bool,
                     relevant: seq<string>, activated: bool, r: Resolution)
    requires i < |ws| && IsRef(ws[i]) && (usingAi || Matches(ws[i][1..], tree) == [])
    requires Explains(ws, i + 1, tree, usingAi, relevant + Matches(ws[i][1..], tree), true, r)
    ensures Explains(ws, i, tree, usingAi, relevant, activated, r)
  {
    HasRefStep(ws, i);
    var found := Matches(ws[i][1..], tree);
    var later := RelevantFrom(ws, i + 1, tree);
    assert RelevantFrom(ws, i, tree) == found + later;
    assert relevant + found + later == relevant + (found + later);
    assert NoEmptyFrom(ws, i) <==> NoEmptyFrom(ws, i + 1);
    match r
    case Resolved(ts, _, _) =>
      assert ts[..i + 1][..i] == ts[..i] && ts[..i + 1][i] == ws[i];
      assert !(!usingAi && Pickable(ws[i], tree));
    case _ =>
  }

  /** Rewriting token `i` changes nothing the loop sees after it. */
  lemma UpdateLater(ws: seq<string>, i: nat, x: string, tree: seq<Item>)
    requires i < |ws|
    ensures NoEmptyFrom(ws[i := x], i + 1) == NoEmptyFrom(ws, i + 1)
    ensures HasRefFrom(ws[i := x], i + 1) == HasRefFrom(ws, i + 1)
    ensures RelevantFrom(ws[i := x], i + 1, tree) == RelevantFrom(ws, i + 1, tree)
    ensures forall k :: i < k < |ws| ==> ws[i := x][k] == ws[k]
  {
    var ws' := ws[i := x];
    RelevantFromUpdate(ws, i + 1, i, x, tree);
    assert forall k :: i < k < |ws| ==> ws'[k] == ws[k];
    if HasRefFrom(ws', i + 1) {
      var k :| i + 1 <= k < |ws'| && IsRef(ws'[k]);
      assert IsRef(ws[k]);
    }
    if HasRefFrom(ws, i + 1) {
      var k :| i + 1 <= k < |ws| && IsRef(ws[k]);
      assert IsRef(ws'[k]);
    }
  }

  /** A reference replaced by the `p`-th of its matches. */
  lemma ExplainsPick(ws: seq<string>, i: nat, tree: seq<Item>, p: nat,
                     relevant: seq<string>, activated: bool, r: Resolution)
    requires i < |ws| && IsRef(ws[i]) && p < |Matches(ws[i][1..], tree)|
    requires Explains(ws[i := Matches(ws[i][1..], tree)[p]], i + 1, tree, false,
                      relevant + Matches(ws[i][1..], tree), true, r)
    ensures Explains(ws, i, tree, false, relevant, activated, r)
  {
    var found := Matches(ws[i][1..], tree);
    var ws' := ws[i := found[p]];
    HasRefStep(ws, i);
    UpdateLater(ws, i, found[p], tree);
    assert NoEmptyFrom(ws, i) <==> NoEmptyFrom(ws', i + 1);
    match r
    case Resolved(ts, rel, act) =>
      ExplainsPickResolved(ws, i, tree, p, relevant, activated, ts, rel, act);
    case _ =>
  }

  /** The matches collected at a reference and after it are the matches from the reference on. */
  lemma PickedRelevant(ws: seq<string>, i: nat, tree: seq<Item>, relevant: seq<string>)
    requires i < |ws| && IsRef(ws[i])
    ensures relevant + Matches(ws[i][1..], tree) + RelevantFrom(ws, i + 1, tree) == relevant + RelevantFrom(ws, i, tree)
  {
    var found := Matches(ws[i][1..], tree);
    var later := RelevantFrom(ws, i + 1, tree);
    assert RelevantFrom(ws, i, tree) == found + later;
    assert relevant + found + later == relevant + (found + later);
  }

  /** The resolved ending after a pick at reference `i`. */
  lemma ExplainsPickResolved(ws: seq<string>, i: nat, tree: seq<Item>, p: nat,
                             relevant: seq<string>, activated: bool, ts: seq<string>, rel: seq<string>, act: bool)
    requires i < |ws| && IsRef(ws[i]) && p < |Matches(ws[i][1..], tree)|
    requires Explains(ws[i := Matches(ws[i][1..], tree)[p]], i + 1, tree, false,
                      relevant + Matches(ws[i][1..], tree), true, Resolved(ts, rel, act))
    ensures Explains(ws, i, tree, false, relevant, activated, Resolved(ts, rel, act))
  {
    var found := Matches(ws[i][1..], tree);
    var ws' := ws[i := found[p]];
    HasRefStep(ws, i);
    UpdateLater(ws, i, found[p], tree);
    PickedRelevant(ws, i, tree, relevant);
    assert NoEmptyFrom(ws, i) <==> NoEmptyFrom(ws', i + 1);
    assert ts[..i + 1][..i] == ts[..i] && ws'[..i] == ws[..i];
    assert ts[i] == ws'[i] by {
      assert ts[..i + 1][i] == ws'[..i + 1][i];
    }
    ReplacedPick(ws, i, tree, found[p], ts);
  }

  /** The replacements of the tokens from `i` on, when token `i` was replaced by one of its matches `x`. */
  lemma ReplacedPick(ws: seq<string>, i: nat, tree: seq<Item>, x: string, ts: seq<string>)
    requires i < |ws| == |ts| && IsRef(ws[i]) && x in Matches(ws[i][1..], tree) && ts[i] == x
    requires forall k :: i + 1 <= k < |ws| ==> Replaced(ws[i := x][k], ts[k], tree, false)
    ensures forall k :: i <= k < |ws| ==> Replaced(ws[k], ts[k], tree, false)
  {
    assert Pickable(ws[i], tree) && Replaced(ws[i], ts[i], tree, false);
    forall k | i < k < |ws| ensures Replaced(ws[k], ts[k], tree, false) {
      assert ws[i := x][k] == ws[k];
    }
  }

  /** Every ending of the loop from token `i` is explained by the tokens. */
  lemma {:induction false} ResolveFromOutcome(ws: seq<string>, i: nat, tree: seq<Item>, usingAi: bool, picks: seq<nat>,
                                             relevant: seq<string>, activated: bool)
    requires i <= |ws|
    ensures Explains(ws, i, tree, usingAi, relevant, activated, ResolveFrom(ws, i, tree, usingAi, picks, relevant, activated))
    decreases |ws| - i
  {
    var r := ResolveFrom(ws, i, tree, usingAi, picks, relevant, activated);
    if i < |ws| && ws[i] != [] {
      if ws[i][0] != '@' {
        ResolveFromOutcome(ws, i + 1, tree, usingAi, picks, relevant, activated);
        ExplainsSkip(ws, i, tree, usingAi, relevant, activated, r);
      } else {
        var found := Matches(ws[i][1..], tree);
        if found == [] || usingAi {
          ResolveFromOutcome(ws, i + 1, tree, usingAi, picks, relevant + found, true);
          ExplainsKeep(ws, i, tree, usingAi, relevant, activated, r);
        } else if !(picks == [] || picks[0] >= |found|) {
          ResolveFromOutcome(ws[i := found[picks[0]]], i + 1, tree, usingAi, picks[1..], relevant + found, true);
          ExplainsPick(ws, i, tree, picks[0], relevant, activated, r);
        } else {
          HasRefStep(ws, i);
        }
      }
    } else if i == |ws| {
      assert ws[..i] == ws;
    }
  }

  /** Rewriting a token before `i` leaves the picks taken from `i` on as they were. */
  lemma {:induction false} PicksBeforeUpdate(ws: seq<string>, j: nat, x: string, i: nat, k: nat, tree: seq<Item>)
    requires j < i <= k <= |ws|
    ensures PicksBefore(ws[j := x], i, k, tree) == PicksBefore(ws, i, k, tree)
    decreases k - i
  {
    if i < k {
      assert ws[j := x][i] == ws[i];
      PicksBeforeUpdate(ws, j, x, i + 1, k, tree);
    }
  }

  /** A token that takes no pick leaves the later picks in place. */
  lemma PickedSkip(ws: seq<string>, i: nat, tree: seq<Item>, picks: seq<nat>, ts: seq<string>)
    requires i < |ws| == |ts| && !Pickable(ws[i], tree)
    requires PickedFrom(ws, i + 1, tree, picks, ts)
    ensures PickedFrom(ws, i, tree, picks, ts)
  {
    forall k | i < k < |ws|
      ensures PicksBefore(ws, i, k, tree) == PicksBefore(ws, i + 1, k, tree)
    {
    }
  }

  /** A reference with matches takes the first pick, the later tokens the rest. */
  lemma PickedTake(ws: seq<string>, i: nat, tree: seq<Item>, picks: seq<nat>, ts: seq<string>)
    requires i < |ws| == |ts| && Pickable(ws[i], tree)
    requires picks != [] && picks[0] < |Matches(ws[i][1..], tree)|
    requires ts[i] == Matches(ws[i][1..], tree)[picks[0]]
    requires PickedFrom(ws[i := ts[i]], i + 1, tree, picks[1..], ts)
    ensures PickedFrom(ws, i, tree, picks, ts)
  {
    var ws' := ws[i := ts[i]];
    forall k | i < k < |ws| && Pickable(ws[k], tree)
      ensures var c := PicksBefore(ws, i, k, tree);
              c < |picks| && picks[c] < |Matches(ws[k][1..], tree)| && ts[k] == Matches(ws[k][1..], tree)[picks[c]]
    {
      PicksBeforeUpdate(ws, i, ts[i], i + 1, k, tree);
      assert ws'[k] == ws[k];
      var c' := PicksBefore(ws', i + 1, k, tree);
      assert PicksBefore(ws, i, k, tree) == c' + 1;
      assert picks[1..][c'] == picks[c' + 1];
    }
  }

  /** Without the model, every reference with matches receives the match picked for it, in token order. */
  lemma {:induction false} ResolveFromPicks(ws: seq<string>, i: nat, tree: seq<Item>, picks: seq<nat>,
                                           relevant: seq<string>, activated: bool)
    requires i <= |ws|
    ensures match ResolveFrom(ws, i, tree, false, picks, relevant, activated)
            case Resolved(ts, _, _) => |ts| == |ws| && ts[..i] == ws[..i] && PickedFrom(ws, i, tree, picks, ts)
            case _ => true
    decreases |ws| - i
  {
    var r := ResolveFrom(ws, i, tree, false, picks, relevant, activated);
    if i == |ws| {
      assert ws[..i] == ws;
    } else if ws[i] != [] {
      var found := if ws[i][0] == '@' then Matches(ws[i][1..], tree) else [];
      if ws[i][0] != '@' {
        ResolveFromPicks(ws, i + 1, tree, picks, relevant, activated);
      } else if found == [] {
        ResolveFromPicks(ws, i + 1, tree, picks, relevant + found, true);
      } else if !(picks == [] || picks[0] >= |found|) {
        ResolveFromPicks(ws[i := found[picks[0]]], i + 1, tree, picks[1..], relevant + found, true);
      }
      match r
      case Resolved(ts, _, _) =>
        if !Pickable(ws[i], tree) {
          assert ts[..i + 1][..i] == ts[..i] && ts[..i + 1][i] == ws[i];
          PickedSkip(ws, i, tree, picks, ts);
        } else {
          var ws' := ws[i := found[picks[0]]];
          assert ts[..i + 1][..i] == ts[..i] && ws'[..i + 1][..i] == ws[..i];
          assert ts[i] == found[picks[0]] by {
            assert ts[..i + 1][i] == ws'[..i + 1][i];
          }
          assert ws' == ws[i := ts[i]];
          PickedTake(ws, i, tree, picks, ts);
        }
      case _ =>
    }
  }

  /** With no empty token and no match at all for the references, the line is aborted, with or without the model. */
  lemma {:induction false} ResolveFromNoTargets(ws: seq<string>, i: nat, tree: seq<Item>, usingAi: bool, picks: seq<nat>,
                                               relevant: seq<string>, activated: bool)
    requires i <= |ws| && NoEmptyFrom(ws, i)
    requires activated || HasRefFrom(ws, i)
    requires relevant + RelevantFrom(ws, i, tree) == []
    ensures ResolveFrom(ws, i, tree, usingAi, picks, relevant, activated) == NoTargets
    decreases |ws| - i
  {
    if i < |ws| {
      var next := RelevantFrom(ws, i + 1, tree);
      var now := if IsRef(ws[i]) then Matches(ws[i][1..], tree) else [];
      assert RelevantFrom(ws, i, tree) == now + next;
      assert now == [] && next == [];
      HasRefStep(ws, i);
      ResolveFromNoTargets(ws, i + 1, tree, usingAi, picks, relevant, activated || IsRef(ws[i]));
    }
  }

  /** With the model, a line without empty tokens keeps its tokens and collects every match, unless nothing matched at all. */
  lemma {:induction false} ResolveFromModel(ws: seq<string>, i: nat, tree: seq<Item>, picks: seq<nat>,
                                           relevant: seq<string>, activated: bool)
    requires i <= |ws| && NoEmptyFrom(ws, i)
    requires !((activated || HasRefFrom(ws, i)) && relevant + RelevantFrom(ws, i, tree) == [])
    ensures ResolveFrom(ws, i, tree, true, picks, relevant, activated) ==
            Resolved(ws, relevant + RelevantFrom(ws, i, tree), activated || HasRefFrom(ws, i))
    decreases |ws| - i, 1
  {
    if i == |ws| {
      assert relevant + [] == relevant;
    } else if IsRef(ws[i]) {
      ModelStepRef(ws, i, tree, picks, relevant, activated);
    } else {
      ModelStepSkip(ws, i, tree, picks, relevant, activated);
    }
  }

  lemma ModelStepRef(ws: seq<string>, i: nat, tree: seq<Item>, picks: seq<nat>,
                     relevant: seq<string>, activated: bool)
    requires i < |ws| && NoEmptyFrom(ws, i) && IsRef(ws[i])
    requires !((activated || HasRefFrom(ws, i)) && relevant + RelevantFrom(ws, i, tree) == [])
    ensures ResolveFrom(ws, i, tree, true, picks, relevant, activated) ==
            Resolved(ws, relevant + RelevantFrom(ws, i, tree), activated || HasRefFrom(ws, i))
    decreases |ws| - i, 0
  {
    var next := RelevantFrom(ws, i + 1, tree);
    var found := Matches(ws[i][1..], tree);
    assert RelevantFrom(ws, i, tree) == found + next;
    assert relevant + found + next == relevant + (found + next);
    assert ResolveFrom(ws, i, tree, true, picks, relevant, activated) ==
           ResolveFrom(ws, i + 1, tree, true, picks, relevant + found, true);
    ResolveFromModel(ws, i + 1, tree, picks, relevant + found, true);
  }

  lemma ModelStepSkip(ws: seq<string>, i: nat, tree: seq<Item>, picks: seq<nat>,
                      relevant: seq<string>, activated: bool)
    requires i < |ws| && NoEmptyFrom(ws, i) && !IsRef(ws[i])
    requires !((activated || HasRefFrom(ws, i)) && relevant + RelevantFrom(ws, i, tree) == [])
    ensures ResolveFrom(ws, i, tree, true, picks, relevant, activated) ==
            Resolved(ws, relevant + RelevantFrom(ws, i, tree), activated || HasRefFrom(ws, i))
    decreases |ws| - i, 0
  {
    HasRefStep(ws, i);
    assert RelevantFrom(ws, i, tree) == RelevantFrom(ws, i + 1, tree);
    assert ResolveFrom(ws, i, tree, true, picks, relevant, activated) ==
           ResolveFrom(ws, i + 1, tree, true, picks, relevant, activated);
    ResolveFromModel(ws, i + 1, tree, picks, relevant, activated);
  }

  /** No token is empty. */
  predicate NoEmpty(ws: seq<string>)
  {
    NoEmptyFrom(ws, 0)
  }

  /** Some token is a reference. */
  predicate HasRef(ws: seq<string>)
  {
    HasRefFrom(ws, 0)
  }

  /** All matches of all reference tokens, in order. */
  function Relevant(ws: seq<string>, tree: seq<Item>): seq<string>
  {
    RelevantFrom(ws, 0, tree)
  }

  /**
   * The line is aborted for want of targets exactly when it has no empty
   * token, some `@` token, and no match for any of them: one reference without
   * matches next to one with matches does not abort.
   */
  lemma NoTargetsIff(ws: seq<string>, tree: seq<Item>, usingAi: bool, picks: seq<nat>)
    ensures Resolve(ws, tree, usingAi, picks) == NoTargets <==>
            NoEmpty(ws) && HasRef(ws) && Relevant(ws, tree) == []
  {
    ResolveFromOutcome(ws, 0, tree, usingAi, picks, [], false);
    assert [] + Relevant(ws, tree) == Relevant(ws, tree);
    if NoEmpty(ws) && HasRef(ws) && Relevant(ws, tree) == [] {
      ResolveFromNoTargets(ws, 0, tree, usingAi, picks, [], false);
    }
  }

  /**
   * With the model the tokens are never changed: the line is resolved with
   * every match as a relevant path, or aborted when its references match
   * nothing, or it fails on an empty token.
   */
  lemma ResolveWithModel(ws: seq<string>, tree: seq<Item>, picks: seq<nat>)
    ensures var r := Resolve(ws, tree, true, picks);
            if !NoEmpty(ws) then r.EmptyToken?
            else if HasRef(ws) && Relevant(ws, tree) == [] then r == NoTargets
            else r == Resolved(ws, Relevant(ws, tree), HasRef(ws))
  {
    ResolveFromOutcome(ws, 0, tree, true, picks, [], false);
    assert [] + Relevant(ws, tree) == Relevant(ws, tree);
    if NoEmpty(ws) {
      if HasRef(ws) && Relevant(ws, tree) == [] {
        ResolveFromNoTargets(ws, 0, tree, true, picks, [], false);
      } else {
        ResolveFromModel(ws, 0, tree, picks, [], false);
      }
    }
  }

  /**
   * Without the model a resolved line keeps every token except the
   * references with matches, each of which is replaced by one of its own
   * matches: the one at the next pick, the picks taken in token order.  The
   * relevant paths are all the matches, and a cancelled pick needs a
   * reference.
   */
  lemma ResolveWithoutModel(ws: seq<string>, tree: seq<Item>, picks: seq<nat>)
    ensures match Resolve(ws, tree, false, picks)
            case Resolved(ts, rel, act) =>
              NoEmpty(ws) && rel == Relevant(ws, tree) && act == HasRef(ws) && |ts| == |ws|
              && (forall k :: 0 <= k < |ws| ==> Replaced(ws[k], ts[k], tree, false))
              && PickedFrom(ws, 0, tree, picks, ts)
            case PickCancelled => HasRef(ws)
            case NoTargets => NoEmpty(ws) && HasRef(ws) && Relevant(ws, tree) == []
            case EmptyToken(_) => !NoEmpty(ws)
  {
    ResolveFromOutcome(ws, 0, tree, false, picks, [], false);
    ResolveFromPicks(ws, 0, tree, picks, [], false);
    assert [] + Relevant(ws, tree) == Relevant(ws, tree);
  }

  /** Without reference tokens there are no matches. */
  lemma {:induction false} RelevantNoRef(ws: seq<string>, i: nat, tree: seq<Item>)
    requires i <= |ws| && !HasRefFrom(ws, i)
    ensures RelevantFrom(ws, i, tree) == []
    decreases |ws| - i
  {
    if i < |ws| {
      HasRefStep(ws, i);
      RelevantNoRef(ws, i + 1, tree);
    }
  }

  /** A line without `@` tokens and without empty tokens passes through unchanged and does not touch the listing. */
  lemma NoRefsUntouched(ws: seq<string>, tree: seq<Item>, usingAi: bool, picks: seq<nat>)
    requires NoEmpty(ws) && !HasRef(ws)
    ensures Resolve(ws, tree, usingAi, picks) == Resolved(ws, [], false)
  {
    ResolveFromOutcome(ws, 0, tree, usingAi, picks, [], false);
    RelevantNoRef(ws, 0, tree);
    match Resolve(ws, tree, usingAi, picks)
    case Resolved(ts, rel, act) =>
      forall k | 0 <= k < |ws| ensures ts[k] == ws[k] {
        assert !IsRef(ws[k]);
      }
      assert ts == ws;
    case _ =>
  }
}
