/**
 * `recursive_list`: a pre-order walk of a directory tree that descends into a
 * directory only while the current depth is below the maximum.  The file
 * system is an abstract tree whose entries carry a file/directory flag; a
 * directory that cannot be read contributes no entries, as the walk's
 * `except` clause skips it.
 */
module DirListing {

  /** An entry of a directory as `os.scandir` reports it. */
  datatype Node =
    | File(name: string)
    | Dir(name: string, readable: bool, children: seq<Node>)

  /** A listed path and whether it names a directory. */
  datatype Item = Item(path: string, isDir: bool)

  /** The file system: the node found at each absolute path. */
  type FileSystem = map<string, Node>

  /** The default `max_depth` of `recursive_list`. */
  const MaxDepth: nat := 5

  /** The text every path inside directory `p` starts with. */
  function DirPrefix(p: string): string
  {
    if p == [] || p[|p| - 1] == '/' then p else p + "/"
  }

  /** The path `os.scandir(p)` gives the entry `name`. */
  function JoinPath(p: string, name: string): string
  {
    DirPrefix(p) + name
  }

  /** `os.path.basename(p)`: the text after the last `/`. */
  function Basename(p: string): string
  {
    if p == [] || p[|p| - 1] == '/' then ""
    else Basename(p[..|p| - 1]) + [p[|p| - 1]]
  }

  /** The basename is the last component: a suffix without `/`, preceded by a `/` unless it is the whole path. */
  lemma {:induction false} BasenameIsLast(p: string)
    ensures var r := Basename(p);
            && |r| <= |p| && r == p[|p| - |r|..]
            && '/' !in r
            && (|r| < |p| ==> p[|p| - |r| - 1] == '/')
  {
    if p != [] && p[|p| - 1] != '/' {
      var init := p[..|p| - 1];
      var c := p[|p| - 1];
      BasenameIsLast(init);
      var r0 := Basename(init);
      var r := r0 + [c];
      assert Basename(p) == r;
      assert p == init + [c];
      assert p[|p| - |r|..] == init[|init| - |r0|..] + [c];
      assert '/' !in r by {
        assert '/' !in r0 && c != '/';
      }
      if |r| < |p| {
        assert p[|p| - |r| - 1] == init[|init| - |r0| - 1];
      }
    }
  }

  /** The item `os.scandir(p)` produces for entry `e`. */
  function ItemOf(p: string, e: Node): Item
  {
    Item(JoinPath(p, e.name), e.Dir?)
  }

  /**
   * The items listed for the entries `es` of directory `p` at depth `d`: each
   * entry, followed, for a readable directory below `maxDepth`, by its own
   * listing one level deeper.
   */
  function Listing(p: string, es: seq<Node>, d: nat, maxDepth: nat): seq<Item>
    decreases es
  {
    if es == [] then []
    else Block(p, es[0], d, maxDepth) + Listing(p, es[1..], d, maxDepth)
  }

  /** What the entry `e` of directory `p` contributes: its item, then its subtree. */
  function Block(p: string, e: Node, d: nat, maxDepth: nat): seq<Item>
    decreases e, 1
  {
    [ItemOf(p, e)] + Below(p, e, d, maxDepth)
  }

  /** The items under entry `e`: empty unless `e` is a readable directory at a depth below `maxDepth`. */
  function Below(p: string, e: Node, d: nat, maxDepth: nat): seq<Item>
    decreases e, 0
  {
    if e.Dir? && e.readable && d < maxDepth then Listing(JoinPath(p, e.name), e.children, d + 1, maxDepth)
    else []
  }

  /** What `_list_items` lists for the node `n` found at `p`: nothing unless it is a readable directory. */
  function Walk(p: string, n: Node, d: nat, maxDepth: nat): seq<Item>
  {
    if n.Dir? && n.readable then Listing(p, n.children, d, maxDepth) else []
  }

  /** `recursive_list(root)`: nothing when `root` cannot be scanned, otherwise its listing from depth 0. */
  function RecursiveListing(fs: FileSystem, root: string): seq<Item>
  {
    if root in fs && fs[root].Dir? && fs[root].readable then Listing(root, fs[root].children, 0, MaxDepth)
    else []
  }

  /** Listing the entries `es + [e]` lists `es`, then `e`'s block. */
  lemma {:induction false} ListingSnoc(p: string, es: seq<Node>, e: Node, d: nat, maxDepth: nat)
    ensures Listing(p, es + [e], d, maxDepth) == Listing(p, es, d, maxDepth) + Block(p, e, d, maxDepth)
    decreases es
  {
    if es == [] {
      assert [e][1..] == [];
    } else {
      assert (es + [e])[1..] == es[1..] + [e];
      ListingSnoc(p, es[1..], e, d, maxDepth);
    }
  }

  /** One more entry: the listing of `es[..i + 1]` extends that of `es[..i]` by the entry's item and its subtree. */
  lemma ListingStep(p: string, es: seq<Node>, i: nat, d: nat, maxDepth: nat)
    requires i < |es|
    ensures Listing(p, es[..i + 1], d, maxDepth) ==
            Listing(p, es[..i], d, maxDepth) + ([ItemOf(p, es[i])] + Below(p, es[i], d, maxDepth))
    ensures es[i].Dir? && d < maxDepth ==>
            Below(p, es[i], d, maxDepth) == Walk(JoinPath(p, es[i].name), es[i], d + 1, maxDepth)
    ensures !(es[i].Dir? && d < maxDepth) ==> Below(p, es[i], d, maxDepth) == []
  {
    assert es[..i + 1] == es[..i] + [es[i]];
    ListingSnoc(p, es[..i], es[i], d, maxDepth);
  }

  /** The walk's accumulator: the nested helper of `recursive_list` appends to it. */
  class Lister {
    var items: seq<Item>
    const maxDepth: nat

    constructor (maxDepth: nat)
      ensures items == [] && this.maxDepth == maxDepth
    {
      items := [];
      this.maxDepth := maxDepth;
    }

    /**
     * `_list_items(path, depth)` on the directory node `dir` found at `path`:
     * appends its listing to `items`.
     */
    method ListItems(path: string, dir: Node, depth: nat)
      modifies this
      ensures items == old(items) + Walk(path, dir, depth, maxDepth)
      decreases dir
    {
      if dir.Dir? && dir.readable {
        var entries := dir.children;
        for i := 0 to |entries|
          invariant items == old(items) + Listing(path, entries[..i], depth, maxDepth)
        {
          var f := entries[i];
          ghost var L := Listing(path, entries[..i], depth, maxDepth);
          ghost var before := items;
          items := items + [ItemOf(path, f)];
          if f.Dir? && depth < maxDepth {
            ListItems(JoinPath(path, f.name), f, depth + 1);
          }
          ListingStep(path, entries, i, depth, maxDepth);
          assert items == before + ([ItemOf(path, f)] + Below(path, f, depth, maxDepth));
          assert items == old(items) + (L + ([ItemOf(path, f)] + Below(path, f, depth, maxDepth)));
        }
        assert entries[..|entries|] == entries;
      }
    }
  }

  /** `recursive_list(root, MaxDepth)` over the file system `fs`. */
  method RecursiveList(fs: FileSystem, root: string) returns (items: seq<Item>)
    ensures items == RecursiveListing(fs, root)
  {
    var lister := new Lister(MaxDepth);
    if root in fs {
      lister.ListItems(root, fs[root], 0);
    }
    items := lister.items;
  }

  // ---------------------------------------------------------------------
  // Properties of the walk.  They hold for trees whose names are what the
  // file system allows: non-empty, without `/`, and distinct among siblings.

  /** A name `os.scandir` can report. */
  predicate ValidName(n: string)
  {
    n != [] && '/' !in n
  }

  /** Names that are valid and distinct among siblings, at every level. */
  predicate WellNamed(es: seq<Node>)
    decreases es
  {
    && (forall k :: 0 <= k < |es| ==> ValidName(es[k].name))
    && (forall k, k' :: 0 <= k < k' < |es| ==> es[k].name != es[k'].name)
    && (forall k :: 0 <= k < |es| && es[k].Dir? ==> WellNamed(es[k].children))
  }

  /** Path `x` lies inside directory `dir`. */
  predicate Under(dir: string, x: string)
  {
    DirPrefix(dir) <= x
  }

  /** Path `x` is the entry `n` of directory `p`, or lies inside it. */
  predicate InEntry(p: string, n: string, x: string)
  {
    x == JoinPath(p, n) || Under(JoinPath(p, n), x)
  }

  /** Path `x` is one of the entries `es` of directory `p`, or lies inside one. */
  predicate InSome(p: string, es: seq<Node>, x: string)
  {
    exists k :: 0 <= k < |es| && InEntry(p, es[k].name, x)
  }

  /** A path that does not end with `/`. */
  predicate Tidy(x: string)
  {
    x != [] && x[|x| - 1] != '/'
  }

  /** The number of `/` in `s`. */
  function Slashes(s: string): nat
  {
    if s == [] then 0 else (if s[0] == '/' then 1 else 0) + Slashes(s[1..])
  }

  /** Path `x`, listed at depth `d`, lies inside `p`, does not end with `/` and is at most `maxDepth - d` levels below `p`'s entries. */
  predicate Fits(p: string, d: nat, maxDepth: nat, x: string)
  {
    Tidy(x) && DirPrefix(p) <= x && d + Slashes(x[|DirPrefix(p)|..]) <= maxDepth
  }

  /** Every item of the block `b` lies in entry `n` of `p` and fits at `p`. */
  predicate BlockFits(p: string, n: string, d: nat, maxDepth: nat, b: seq<Item>)
  {
    forall i :: 0 <= i < |b| ==> InEntry(p, n, b[i].path) && Fits(p, d, maxDepth, b[i].path)
  }

  /** Every item of the listing `l` lies in one of the entries `es` of `p` and fits at `p`. */
  predicate ListingFits(p: string, es: seq<Node>, d: nat, maxDepth: nat, l: seq<Item>)
  {
    forall i :: 0 <= i < |l| ==> InSome(p, es, l[i].path) && Fits(p, d, maxDepth, l[i].path)
  }

  /** Every item of `l` lies inside an item listed before it, never inside one at or after it. */
  predicate ParentsFirst(l: seq<Item>)
  {
    forall i, j :: 0 <= j <= i < |l| ==> !Under(l[i].path, l[j].path)
  }

  lemma {:induction false} SlashesAppend(a: string, b: string)
    ensures Slashes(a + b) == Slashes(a) + Slashes(b)
  {
    if a != [] {
      assert (a + b)[0] == a[0];
      assert (a + b)[1..] == a[1..] + b;
      SlashesAppend(a[1..], b);
    } else {
      assert a + b == b;
    }
  }

  lemma {:induction false} SlashesNone(a: string)
    requires '/' !in a
    ensures Slashes(a) == 0
  {
    if a != [] {
      SlashesNone(a[1..]);
    }
  }

  /** At or beyond the maximum depth nothing is descended into: the listing is the entries themselves. */
  lemma {:induction false} ListingShallow(p: string, es: seq<Node>, d: nat, maxDepth: nat)
    requires maxDepth <= d
    ensures Listing(p, es, d, maxDepth) == seq(|es|, i requires 0 <= i < |es| => ItemOf(p, es[i]))
    decreases es
  {
    if es != [] {
      ListingShallow(p, es[1..], d, maxDepth);
      assert Block(p, es[0], d, maxDepth) == [ItemOf(p, es[0])];
      var t := seq(|es| - 1, i requires 0 <= i < |es| - 1 => ItemOf(p, es[1..][i]));
      assert seq(|es|, i requires 0 <= i < |es| => ItemOf(p, es[i])) == [ItemOf(p, es[0])] + t;
    }
  }

  /** A path that does not end with `/` does not lie inside itself. */
  lemma NotUnderSelf(x: string)
    requires Tidy(x)
    ensures !Under(x, x)
  {
  }

  /** A path inside directory `q` does not hold `q` itself. */
  lemma NotUnderAncestor(q: string, y: string)
    requires Tidy(y) && Under(q, y)
    ensures !Under(y, q)
  {
  }

  /** The shape of a path inside entry `n` of `p`: the directory prefix, the name, then the end or a `/`. */
  lemma EntryShape(p: string, n: string, x: string)
    requires ValidName(n) && InEntry(p, n, x)
    ensures |DirPrefix(p)| + |n| <= |x|
    ensures x[..|DirPrefix(p)|] == DirPrefix(p) && x[|DirPrefix(p)|..|DirPrefix(p)| + |n|] == n
    ensures |x| == |DirPrefix(p)| + |n| || x[|DirPrefix(p)| + |n|] == '/'
  {
    var q := JoinPath(p, n);
    assert q[|q| - 1] == n[|n| - 1] != '/';
    assert DirPrefix(q) == DirPrefix(p) + n + "/";
  }

  /** A path inside entry `a` never holds a path inside a different sibling `b`. */
  lemma Disjoint(p: string, a: string, b: string, x: string, y: string)
    requires ValidName(a) && ValidName(b) && a != b
    requires InEntry(p, a, x) && InEntry(p, b, y) && Tidy(x)
    ensures !Under(x, y)
  {
    var D := |DirPrefix(p)|;
    EntryShape(p, a, x);
    EntryShape(p, b, y);
    var u := DirPrefix(x);
    assert u == x + "/";
    assert u[D + |a|] == '/';
    if |a| < |b| {
      assert y[D + |a|] == b[|a|];
      assert b[|a|] != '/';
    } else if |a| > |b| {
      assert u[D + |b|] == a[|b|];
      assert a[|b|] != '/';
    } else {
      var c :| 0 <= c < |a| && a[c] != b[c];
      assert u[D + c] == a[c] && y[D + c] == b[c];
    }
  }

  /** The entry item itself: `p`'s prefix and the name. */
  lemma ItemFits(p: string, e: Node, d: nat, maxDepth: nat)
    requires ValidName(e.name) && d <= maxDepth
    ensures InEntry(p, e.name, ItemOf(p, e).path) && Fits(p, d, maxDepth, ItemOf(p, e).path)
  {
    var x := ItemOf(p, e).path;
    assert x[|x| - 1] == e.name[|e.name| - 1];
    assert x[|DirPrefix(p)|..] == e.name;
    SlashesNone(e.name);
  }

  /** A path that fits one level down, inside entry `n`, fits at `p` and lies in that entry. */
  lemma FitsUp(p: string, n: string, d: nat, maxDepth: nat, y: string)
    requires ValidName(n) && Fits(JoinPath(p, n), d + 1, maxDepth, y)
    ensures InEntry(p, n, y) && Fits(p, d, maxDepth, y)
  {
    var q := JoinPath(p, n);
    var D := DirPrefix(p);
    assert q[|q| - 1] == n[|n| - 1];
    assert DirPrefix(q) == D + (n + "/");
    var rest := y[|DirPrefix(q)|..];
    assert y == DirPrefix(q) + rest;
    assert y[|D|..] == n + ("/" + rest);
    SlashesNone(n);
    SlashesAppend(n, "/" + rest);
    SlashesAppend("/", rest);
  }

  /** Every item listed for entry `e` of `p` lies in that entry and fits at `p`. */
  lemma {:induction false} BlockPaths(p: string, e: Node, d: nat, maxDepth: nat)
    requires ValidName(e.name) && (e.Dir? ==> WellNamed(e.children)) && d <= maxDepth
    ensures BlockFits(p, e.name, d, maxDepth, Block(p, e, d, maxDepth))
    decreases e, 1
  {
    var b := Block(p, e, d, maxDepth);
    var sub := Below(p, e, d, maxDepth);
    assert b == [ItemOf(p, e)] + sub;
    ItemFits(p, e, d, maxDepth);
    if e.Dir? && e.readable && d < maxDepth {
      var q := JoinPath(p, e.name);
      assert sub == Listing(q, e.children, d + 1, maxDepth);
      ListingPaths(q, e.children, d + 1, maxDepth);
      forall i | 0 < i < |b| ensures InEntry(p, e.name, b[i].path) && Fits(p, d, maxDepth, b[i].path) {
        assert b[i] == sub[i - 1];
        assert Fits(q, d + 1, maxDepth, sub[i - 1].path);
        FitsUp(p, e.name, d, maxDepth, b[i].path);
      }
    }
    assert BlockFits(p, e.name, d, maxDepth, b);
  }

  /** Every listed item lies in one of the entries and fits at `p`. */
  lemma {:induction false} ListingPaths(p: string, es: seq<Node>, d: nat, maxDepth: nat)
    requires WellNamed(es) && d <= maxDepth
    ensures ListingFits(p, es, d, maxDepth, Listing(p, es, d, maxDepth))
    decreases es, 0
  {
    if es != [] {
      var b := Block(p, es[0], d, maxDepth);
      var r := Listing(p, es[1..], d, maxDepth);
      var l := b + r;
      assert Listing(p, es, d, maxDepth) == l;
      WellNamedTail(es);
      BlockPaths(p, es[0], d, maxDepth);
      ListingPaths(p, es[1..], d, maxDepth);
      forall i | 0 <= i < |l| ensures InSome(p, es, l[i].path) && Fits(p, d, maxDepth, l[i].path) {
        if i < |b| {
          assert l[i] == b[i];
          assert InEntry(p, es[0].name, l[i].path) && Fits(p, d, maxDepth, b[i].path);
        } else {
          assert l[i] == r[i - |b|];
          assert InSome(p, es[1..], r[i - |b|].path) && Fits(p, d, maxDepth, r[i - |b|].path);
          var k :| 0 <= k < |es[1..]| && InEntry(p, es[1..][k].name, l[i].path);
          assert InEntry(p, es[k + 1].name, l[i].path);
        }
      }
      assert ListingFits(p, es, d, maxDepth, l);
    }
  }

  lemma WellNamedTail(es: seq<Node>)
    requires WellNamed(es) && es != []
    ensures WellNamed(es[1..])
  {
    var t := es[1..];
    assert forall k :: 0 <= k < |t| ==> t[k] == es[k + 1];
    assert forall k, k' :: 0 <= k < k' < |t| ==> t[k].name != t[k'].name by {
      forall k, k' | 0 <= k < k' < |t| ensures t[k].name != t[k'].name {
        assert t[k] == es[k + 1] && t[k'] == es[k' + 1];
      }
    }
  }

  /** An item followed by items none of which holds it. */
  lemma ParentsFirstCons(x: Item, l: seq<Item>)
    requires ParentsFirst(l) && !Under(x.path, x.path)
    requires forall k :: 0 <= k < |l| ==> !Under(l[k].path, x.path)
    ensures ParentsFirst([x] + l)
  {
    var c := [x] + l;
    forall i, j | 0 <= j <= i < |c| ensures !Under(c[i].path, c[j].path) {
      if 0 < j {
        assert c[i] == l[i - 1] && c[j] == l[j - 1];
      } else if 0 < i {
        assert c[i] == l[i - 1];
      }
    }
  }

  /** Two runs of items, none of the second inside an item of the first, keep parents first when joined. */
  lemma ParentsFirstAppend(b: seq<Item>, r: seq<Item>)
    requires ParentsFirst(b) && ParentsFirst(r)
    requires forall i, j :: 0 <= i < |r| && 0 <= j < |b| ==> !Under(r[i].path, b[j].path)
    ensures ParentsFirst(b + r)
  {
    var l := b + r;
    forall i, j | 0 <= j <= i < |l| ensures !Under(l[i].path, l[j].path) {
      if i < |b| {
        assert l[i] == b[i] && l[j] == b[j];
      } else if |b| <= j {
        assert l[i] == r[i - |b|] && l[j] == r[j - |b|];
      } else {
        assert l[i] == r[i - |b|] && l[j] == b[j];
      }
    }
  }

  /** A path in a later entry never lies inside a path of the first entry. */
  lemma SiblingsApart(p: string, es: seq<Node>, x: string, y: string)
    requires WellNamed(es) && es != []
    requires InSome(p, es[1..], x) && Tidy(x)
    requires InEntry(p, es[0].name, y)
    ensures !Under(x, y)
  {
    var k :| 0 <= k < |es[1..]| && InEntry(p, es[1..][k].name, x);
    assert es[1..][k] == es[k + 1];
    assert es[0].name != es[k + 1].name;
    Disjoint(p, es[k + 1].name, es[0].name, x, y);
  }

  /** Nothing listed inside directory `q` holds `q` itself. */
  lemma ListedBelow(q: string, es: seq<Node>, d: nat, maxDepth: nat)
    requires WellNamed(es) && d <= maxDepth
    ensures var l := Listing(q, es, d, maxDepth);
            forall k :: 0 <= k < |l| ==> !Under(l[k].path, q)
  {
    var l := Listing(q, es, d, maxDepth);
    ListingPaths(q, es, d, maxDepth);
    forall k | 0 <= k < |l| ensures !Under(l[k].path, q) {
      assert Fits(q, d, maxDepth, l[k].path);
      NotUnderAncestor(q, l[k].path);
    }
  }

  /** Within one entry's block the entry comes before everything inside it. */
  lemma {:induction false} BlockParentFirst(p: string, e: Node, d: nat, maxDepth: nat)
    requires ValidName(e.name) && (e.Dir? ==> WellNamed(e.children)) && d <= maxDepth
    ensures ParentsFirst(Block(p, e, d, maxDepth))
    decreases e, 1
  {
    var b := Block(p, e, d, maxDepth);
    var sub := Below(p, e, d, maxDepth);
    var q := JoinPath(p, e.name);
    assert b == [ItemOf(p, e)] + sub;
    ItemFits(p, e, d, maxDepth);
    assert b[0].path == q;
    if e.Dir? && e.readable && d < maxDepth {
      assert sub == Listing(q, e.children, d + 1, maxDepth);
      ListedBelow(q, e.children, d + 1, maxDepth);
      ParentFirst(q, e.children, d + 1, maxDepth);
      NotUnderSelf(q);
      ParentsFirstCons(ItemOf(p, e), sub);
    } else {
      assert b == [ItemOf(p, e)];
      NotUnderSelf(q);
    }
    assert ParentsFirst(b);
  }

  /**
   * `recursive_list` is pre-order: a listed path never lies inside a
   * directory listed at or after it.
   */
  lemma {:induction false} ParentFirst(p: string, es: seq<Node>, d: nat, maxDepth: nat)
    requires WellNamed(es) && d <= maxDepth
    ensures ParentsFirst(Listing(p, es, d, maxDepth))
    decreases es, 0
  {
    if es != [] {
      var b := Block(p, es[0], d, maxDepth);
      var r := Listing(p, es[1..], d, maxDepth);
      assert Listing(p, es, d, maxDepth) == b + r;
      WellNamedTail(es);
      BlockParentFirst(p, es[0], d, maxDepth);
      ParentFirst(p, es[1..], d, maxDepth);
      BlockPaths(p, es[0], d, maxDepth);
      ListingPaths(p, es[1..], d, maxDepth);
      forall i, j | 0 <= i < |r| && 0 <= j < |b| ensures !Under(r[i].path, b[j].path) {
        SiblingsApart(p, es, r[i].path, b[j].path);
      }
      ParentsFirstAppend(b, r);
    }
  }

  /**
   * For `recursive_list(root)`: every path lies inside `root`, at most
   * `MaxDepth` levels below its entries, and a directory always precedes
   * its contents.
   */
  lemma RecursiveListingShape(fs: FileSystem, root: string)
    requires root in fs && fs[root].Dir? && WellNamed(fs[root].children)
    ensures var l := RecursiveListing(fs, root);
            && (forall i :: 0 <= i < |l| ==> Under(root, l[i].path) && Slashes(l[i].path[|DirPrefix(root)|..]) <= MaxDepth)
            && ParentsFirst(l)
  {
    if fs[root].readable {
      var l := Listing(root, fs[root].children, 0, MaxDepth);
      ListingPaths(root, fs[root].children, 0, MaxDepth);
      ParentFirst(root, fs[root].children, 0, MaxDepth);
      forall i | 0 <= i < |l| ensures Under(root, l[i].path) && Slashes(l[i].path[|DirPrefix(root)|..]) <= MaxDepth {
        assert InSome(root, fs[root].children, l[i].path) && Fits(root, 0, MaxDepth, l[i].path);
      }
    }
  }

  /** Text after a directory prefix: its basename is itself when it holds no `/`. */
  lemma {:induction false} BasenameAfter(dir: string, n: string)
    requires dir == [] || dir[|dir| - 1] == '/'
    requires '/' !in n
    ensures Basename(dir + n) == n
  {
    if n != [] {
      var x := dir + n;
      var init := n[..|n| - 1];
      assert x[|x| - 1] == n[|n| - 1] && n[|n| - 1] != '/';
      assert x[..|x| - 1] == dir + init;
      assert Basename(x) == Basename(dir + init) + [n[|n| - 1]];
      assert '/' !in init;
      BasenameAfter(dir, init);
      assert init + [n[|n| - 1]] == n;
    } else {
      assert dir + n == dir;
    }
  }

  /** The basename of the path `os.scandir(q)` gives entry `n` is `n`. */
  lemma BasenameJoin(q: string, n: string)
    requires ValidName(n)
    ensures Basename(JoinPath(q, n)) == n
  {
    BasenameAfter(DirPrefix(q), n);
  }
}
