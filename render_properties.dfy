/** What the rendered tree promises: the depth bound, the framing of the root,
    the prefix and connector of every line, that excluded entries and what lies
    below them never appear, and that every entry is exactly one line. */
module RenderProperties {
  import opened Strings
  import opened FileTree
  import opened Exclusion
  import opened Icons
  import opened Renderer

  /** `m` can be reached from `n` by descending only into entries that listings
      return and `should_exclude` keeps. */
  ghost predicate Reachable(cfg: Config, n: Node, m: Node)
    decreases n
  {
    n.Dir? && n.listing.Listed? &&
    exists k | k in n.listing.entries && !Excluded(cfg, k) :: k == m || Reachable(cfg, k, m)
  }

  /** `Lines` distributes over concatenation. */
  lemma {:induction false} LinesAppend(a: seq<Entry>, b: seq<Entry>)
    ensures Lines(a + b) == Lines(a) + Lines(b)
  {
    if |a| == 0 {
      assert a + b == b;
    } else {
      assert (a + b)[0] == a[0];
      assert (a + b)[1..] == a[1..] + b;
      LinesAppend(a[1..], b);
      AppendAssociative(EntryLine(a[0]), Lines(a[1..]), Lines(b));
    }
  }

  /** A node's own line comes first, its children's lines after it. */
  lemma LinesCons(e: Entry, rest: seq<Entry>)
    ensures Lines([e] + rest) == EntryLine(e) + Lines(rest)
  {
    assert ([e] + rest)[0] == e && ([e] + rest)[1..] == rest;
  }

  /** The entries of the first `index + 1` children extend those of the first `index`. */
  lemma KidsEntriesStep(cfg: Config, node: Node, childPrefix: string, depth: nat, index: nat)
    requires index < |ShownChildren(cfg, node)|
    ensures KidsEntries(cfg, node, childPrefix, depth, index + 1)
         == KidsEntries(cfg, node, childPrefix, depth, index)
          + Entries(cfg, ShownChildren(cfg, node)[index], childPrefix, depth, index == |ShownChildren(cfg, node)| - 1)
  {
  }

  /** A line among the first `count` children's lines belongs to the last of
      them, child `count - 1` (`inLast`), or to one of the children before it. */
  lemma KidsSplit(cfg: Config, parent: Node, prefix: string, depth: nat, count: nat, e: Entry)
    returns (inLast: bool)
    requires 1 <= count <= |ShownChildren(cfg, parent)|
    requires e in KidsEntries(cfg, parent, prefix, depth, count)
    ensures inLast ==> e in Entries(cfg, ShownChildren(cfg, parent)[count - 1], prefix, depth, count - 1 == |ShownChildren(cfg, parent)| - 1)
    ensures !inLast ==> e in KidsEntries(cfg, parent, prefix, depth, count - 1)
  {
    KidsEntriesStep(cfg, parent, prefix, depth, count - 1);
    inLast := e !in KidsEntries(cfg, parent, prefix, depth, count - 1);
  }

  /** Every line among the first `count` children's lines comes from one of them. */
  lemma {:induction false} KidsOrigin(cfg: Config, parent: Node, prefix: string, depth: nat, count: nat, e: Entry)
    returns (i: nat)
    requires count <= |ShownChildren(cfg, parent)|
    requires e in KidsEntries(cfg, parent, prefix, depth, count)
    ensures i < count
    ensures e in Entries(cfg, ShownChildren(cfg, parent)[i], prefix, depth, i == |ShownChildren(cfg, parent)| - 1)
    decreases count
  {
    var inLast := KidsSplit(cfg, parent, prefix, depth, count, e);
    if inLast {
      i := count - 1;
    } else {
      i := KidsOrigin(cfg, parent, prefix, depth, count - 1, e);
    }
  }

  /** The lines of child `index` are among those of the first `index + 1` children. */
  lemma KidsContainLast(cfg: Config, parent: Node, prefix: string, depth: nat, index: nat, e: Entry)
    requires index < |ShownChildren(cfg, parent)|
    requires e in Entries(cfg, ShownChildren(cfg, parent)[index], prefix, depth, index == |ShownChildren(cfg, parent)| - 1)
    ensures e in KidsEntries(cfg, parent, prefix, depth, index + 1)
  {
    KidsEntriesStep(cfg, parent, prefix, depth, index);
  }

  /** A line among the first `count - 1` children's lines stays once child `count - 1` follows. */
  lemma KidsContainGrow(cfg: Config, parent: Node, prefix: string, depth: nat, count: nat, e: Entry)
    requires 1 <= count <= |ShownChildren(cfg, parent)|
    requires e in KidsEntries(cfg, parent, prefix, depth, count - 1)
    ensures e in KidsEntries(cfg, parent, prefix, depth, count)
  {
    KidsEntriesStep(cfg, parent, prefix, depth, count - 1);
  }

  /** Conversely, every line of child `i` is among the first `count` children's
      lines once `i < count`. */
  lemma {:induction false} KidsContain(cfg: Config, parent: Node, prefix: string, depth: nat, count: nat, i: nat, e: Entry)
    requires i < count <= |ShownChildren(cfg, parent)|
    requires e in Entries(cfg, ShownChildren(cfg, parent)[i], prefix, depth, i == |ShownChildren(cfg, parent)| - 1)
    ensures e in KidsEntries(cfg, parent, prefix, depth, count)
    decreases count
  {
    if count == i + 1 {
      KidsContainLast(cfg, parent, prefix, depth, i, e);
    } else {
      KidsContain(cfg, parent, prefix, depth, count - 1, i, e);
      KidsContainGrow(cfg, parent, prefix, depth, count, e);
    }
  }

  /** An entry of a node's rendering is the node's own line (`own`) or one of
      its children's lines. */
  lemma EntriesSplit(cfg: Config, n: Node, p: string, d: nat, l: bool, e: Entry) returns (own: bool)
    requires e in Entries(cfg, n, p, d, l)
    ensures d <= cfg.maxDepth
    ensures own ==> d >= 1 && e.depth == d && e.prefix == p && e.isLast == l && e.node == n
    ensures !own ==> e in KidsEntries(cfg, n, ChildPrefix(p, d, l), d + 1, |ShownChildren(cfg, n)|)
  {
    own := d >= 1 && e !in KidsEntries(cfg, n, ChildPrefix(p, d, l), d + 1, |ShownChildren(cfg, n)|);
  }

  /** Every entry below `n` is either `n`'s own line or lies in the rendering of
      one of the children shown under `n`, `kid`: an entry of `n`'s listing
      that is not excluded, and last among those shown when `kidIsLast`. */
  lemma EntryOrigin(cfg: Config, n: Node, p: string, d: nat, l: bool, e: Entry)
    returns (own: bool, kid: Node, kidIsLast: bool)
    requires e in Entries(cfg, n, p, d, l)
    ensures d <= cfg.maxDepth
    ensures own ==> d >= 1 && e.depth == d && e.prefix == p && e.isLast == l && e.node == n
    ensures !own ==> n.Dir? && n.listing.Listed? && kid in n.listing.entries && !Excluded(cfg, kid)
    ensures !own ==> e in Entries(cfg, kid, ChildPrefix(p, d, l), d + 1, kidIsLast)
  {
    own := EntriesSplit(cfg, n, p, d, l, e);
    kid, kidIsLast := n, l;
    if !own {
      var cp := ChildPrefix(p, d, l);
      var kids := ShownChildren(cfg, n);
      var i := KidsOrigin(cfg, n, cp, d + 1, |kids|, e);
      kid, kidIsLast := kids[i], i == |kids| - 1;
      ShownChildKept(cfg, n, kid);
    }
  }

  lemma {:induction false} DepthBoundAt(cfg: Config, n: Node, p: string, d: nat, l: bool, e: Entry)
    requires e in Entries(cfg, n, p, d, l)
    ensures 1 <= e.depth && d <= e.depth <= cfg.maxDepth
    decreases n
  {
    var own, kid, kidIsLast := EntryOrigin(cfg, n, p, d, l, e);
    if !own {
      DepthBoundAt(cfg, kid, ChildPrefix(p, d, l), d + 1, kidIsLast, e);
    }
  }

  /** Depth bound: no entry lies deeper than `max_depth`, none above the depth
      rendering started at, and the root itself is never an entry. */
  lemma DepthBound(cfg: Config, n: Node, p: string, d: nat, l: bool)
    ensures forall e | e in Entries(cfg, n, p, d, l) :: 1 <= e.depth && d <= e.depth <= cfg.maxDepth
  {
    forall e | e in Entries(cfg, n, p, d, l) ensures 1 <= e.depth && d <= e.depth <= cfg.maxDepth {
      DepthBoundAt(cfg, n, p, d, l, e);
    }
  }

  /** Below depth 1, each level adds exactly four characters to the prefix
      (the depth is written `k + 1` so that it is at least 1). */
  lemma {:induction false} PrefixLengthAt(cfg: Config, n: Node, p: string, k: nat, l: bool, e: Entry)
    requires e in Entries(cfg, n, p, k + 1, l)
    ensures |e.prefix| == |p| + 4 * (e.depth - (k + 1))
    decreases n
  {
    var own, kid, kidIsLast := EntryOrigin(cfg, n, p, k + 1, l, e);
    if !own {
      PrefixLengthAt(cfg, kid, ChildPrefix(p, k + 1, l), k + 1, kidIsLast, e);
    }
  }

  lemma PrefixLength(cfg: Config, n: Node, p: string, k: nat, l: bool)
    ensures forall e | e in Entries(cfg, n, p, k + 1, l) :: |e.prefix| == |p| + 4 * (e.depth - (k + 1))
  {
    forall e | e in Entries(cfg, n, p, k + 1, l) ensures |e.prefix| == |p| + 4 * (e.depth - (k + 1)) {
      PrefixLengthAt(cfg, n, p, k, l, e);
    }
  }

  /** From the root, an entry at depth `k` has a prefix of exactly `4 * (k - 1)`
      characters: the root's children start with the empty prefix. */
  lemma RootPrefixLength(cfg: Config, root: Node, p: string, l: bool)
    ensures forall e | e in Entries(cfg, root, p, 0, l) :: |e.prefix| == 4 * (e.depth - 1)
  {
    forall e | e in Entries(cfg, root, p, 0, l) ensures |e.prefix| == 4 * (e.depth - 1) {
      RootPrefixLengthAt(cfg, root, p, 0, l, e);
    }
  }

  lemma RootPrefixLengthAt(cfg: Config, root: Node, p: string, d: nat, l: bool, e: Entry)
    requires e in Entries(cfg, root, p, d, l)
    ensures d == 0 ==> |e.prefix| == 4 * (e.depth - 1)
  {
    var own, kid, kidIsLast := EntryOrigin(cfg, root, p, d, l, e);
    if !own {
      PrefixLengthAt(cfg, kid, ChildPrefix(p, d, l), d, kidIsLast, e);
    }
  }

  /** A kept entry of `n`'s listing is reachable from `n`, and so is everything
      reachable from it. */
  lemma ReachableThrough(cfg: Config, n: Node, kid: Node, m: Node)
    requires n.Dir? && n.listing.Listed? && kid in n.listing.entries && !Excluded(cfg, kid)
    requires kid == m || Reachable(cfg, kid, m)
    ensures Reachable(cfg, n, m)
  {
  }

  lemma {:induction false} ReachableAt(cfg: Config, n: Node, p: string, d: nat, l: bool, e: Entry)
    requires e in Entries(cfg, n, p, d, l)
    ensures (d >= 1 && e.node == n) || Reachable(cfg, n, e.node)
    decreases n, 1
  {
    var own, kid, kidIsLast := EntryOrigin(cfg, n, p, d, l, e);
    if !own {
      ReachableBelow(cfg, n, kid, ChildPrefix(p, d, l), d + 1, kidIsLast, e);
    }
  }

  /** Every line rendered below a kept entry `kid` of `n`'s listing shows a node
      reachable from `n`. */
  lemma {:induction false} ReachableBelow(cfg: Config, n: Node, kid: Node, p: string, d: nat, l: bool, e: Entry)
    requires n.Dir? && n.listing.Listed? && kid in n.listing.entries && !Excluded(cfg, kid)
    requires e in Entries(cfg, kid, p, d, l)
    ensures Reachable(cfg, n, e.node)
    decreases n, 0
  {
    ReachableAt(cfg, kid, p, d, l, e);
    ReachableThrough(cfg, n, kid, e.node);
  }

  lemma {:induction false} ReachableIsKept(cfg: Config, n: Node, m: Node)
    requires Reachable(cfg, n, m)
    ensures !Excluded(cfg, m)
    decreases n
  {
    var k :| k in n.listing.entries && !Excluded(cfg, k) && (k == m || Reachable(cfg, k, m));
    if k != m {
      ReachableIsKept(cfg, k, m);
    }
  }

  /** Excluded entries never appear, and neither does anything below them: every
      line of the tree is reached from the root through kept entries only. */
  lemma ExcludedNeverShown(cfg: Config, root: Node, p: string, l: bool)
    ensures forall e | e in Entries(cfg, root, p, 0, l) :: Reachable(cfg, root, e.node) && !Excluded(cfg, e.node)
  {
    forall e | e in Entries(cfg, root, p, 0, l) ensures Reachable(cfg, root, e.node) && !Excluded(cfg, e.node) {
      ReachableAt(cfg, root, p, 0, l, e);
      ReachableIsKept(cfg, root, e.node);
    }
  }

  /** Each entry within the bound opens its own block with its own line. */
  lemma OwnLineFirst(cfg: Config, n: Node, p: string, k: nat, l: bool)
    requires k + 1 <= cfg.maxDepth
    ensures Entries(cfg, n, p, k + 1, l) != [] && Entries(cfg, n, p, k + 1, l)[0] == Entry(p, l, n, k + 1)
  {
  }

  /** Within the bound, every kept child of a directory gets its own line, with
      the prefix its parent hands down, and it is marked last exactly when it is
      the last child in sorted order. */
  lemma SiblingLines(cfg: Config, n: Node, p: string, d: nat, l: bool)
    requires d + 1 <= cfg.maxDepth
    ensures forall i | 0 <= i < |ShownChildren(cfg, n)| ::
      Entry(ChildPrefix(p, d, l), i == |ShownChildren(cfg, n)| - 1, ShownChildren(cfg, n)[i], d + 1)
        in Entries(cfg, n, p, d, l)
  {
    var kids := ShownChildren(cfg, n);
    var cp := ChildPrefix(p, d, l);
    forall i | 0 <= i < |kids| ensures Entry(cp, i == |kids| - 1, kids[i], d + 1) in Entries(cfg, n, p, d, l) {
      var e := Entry(cp, i == |kids| - 1, kids[i], d + 1);
      OwnLineFirst(cfg, kids[i], cp, d, i == |kids| - 1);
      KidsContain(cfg, n, cp, d + 1, |kids|, i, e);
      KidsWithinEntries(cfg, n, p, d, l, e);
    }
  }

  /** The children's lines are part of the node's own rendering. */
  lemma KidsWithinEntries(cfg: Config, n: Node, p: string, d: nat, l: bool, e: Entry)
    requires d <= cfg.maxDepth
    requires e in KidsEntries(cfg, n, ChildPrefix(p, d, l), d + 1, |ShownChildren(cfg, n)|)
    ensures e in Entries(cfg, n, p, d, l)
  {
  }

  /** After the same prefix, a line shows exactly the connector it was given. */
  lemma ConnectorAfterPrefix(p: string, c: string, rest: string)
    requires c == Elbow || c == Tee
    ensures StartsWith(p + c + rest, p + Elbow) <==> c == Elbow
    ensures StartsWith(p + c + rest, p + Tee) <==> c == Tee
  {
    assert (p + c + rest)[..|p| + 4] == p + c;
    assert (p + Elbow)[|p|] != (p + Tee)[|p|];
  }

  /** The connector: `└── ` for the last of its siblings, `├── ` otherwise. */
  lemma ConnectorMarksLast(e: Entry)
    ensures StartsWith(EntryText(e), e.prefix + Elbow) <==> e.isLast
    ensures StartsWith(EntryText(e), e.prefix + Tee) <==> !e.isLast
  {
    var rest := if e.node.Dir? then FolderIcon + " " + e.node.name + "/" else FileIcon(e.node.name) + " " + e.node.name;
    var c := if e.isLast then Elbow else Tee;
    assert EntryText(e) == e.prefix + c + rest;
    ConnectorAfterPrefix(e.prefix, c, rest);
  }

  /** The texts of the lines, without their line breaks, in output order. */
  function Texts(es: seq<Entry>): (texts: seq<string>)
    ensures |texts| == |es|
  {
    seq(|es|, i requires 0 <= i < |es| => EntryText(es[i]))
  }

  /** A line's text holds no line break when neither its prefix nor its name does. */
  lemma EntryTextOneLine(e: Entry)
    requires '\n' !in e.prefix && '\n' !in e.node.name
    ensures '\n' !in EntryText(e)
  {
    IconIsOneLine(e.node.name);
  }

  /** Indentation adds no line break. */
  lemma ChildPrefixOneLine(p: string, d: nat, l: bool)
    requires '\n' !in p
    ensures '\n' !in ChildPrefix(p, d, l)
  {
  }

  /** The prefixes handed down from a prefix without line breaks have none. */
  lemma {:induction false} PrefixOneLineAt(cfg: Config, n: Node, p: string, d: nat, l: bool, e: Entry)
    requires '\n' !in p
    requires e in Entries(cfg, n, p, d, l)
    ensures '\n' !in e.prefix
    decreases n
  {
    var own, kid, kidIsLast := EntryOrigin(cfg, n, p, d, l, e);
    if !own {
      ChildPrefixOneLine(p, d, l);
      PrefixOneLineAt(cfg, kid, ChildPrefix(p, d, l), d + 1, kidIsLast, e);
    }
  }

  lemma TextsCons(es: seq<Entry>)
    requires |es| > 0
    ensures Texts(es) == [EntryText(es[0])] + Texts(es[1..])
  {
    var texts := [EntryText(es[0])] + Texts(es[1..]);
    forall k | 0 <= k < |es| ensures Texts(es)[k] == texts[k] {
      if k > 0 {
        assert es[1..][k - 1] == es[k];
      }
    }
  }

  /** Splitting the lines at line breaks gives back the texts of the entries,
      then the empty remainder after the last line break. */
  lemma {:induction false} LinesSplit(es: seq<Entry>)
    requires forall i | 0 <= i < |es| :: '\n' !in EntryText(es[i])
    ensures Split(Lines(es), '\n') == Texts(es) + [""]
  {
    if |es| > 0 {
      var rest := es[1..];
      forall i | 0 <= i < |rest| ensures '\n' !in EntryText(rest[i]) {
        assert rest[i] == es[i + 1];
      }
      LinesSplit(rest);
      var text := EntryText(es[0]);
      assert Lines(es) == text + ['\n'] + Lines(rest);
      SplitAtFirst(text, '\n', Lines(rest));
      TextsCons(es);
    }
  }

  /** One line per entry: when no name in the tree holds a line break, the tree
      lines below the root line are exactly the entries' texts, one per line and
      in order. */
  lemma OneLinePerEntry(cfg: Config, root: Node)
    requires forall m | Reachable(cfg, root, m) :: '\n' !in m.name
    ensures Split(Lines(Entries(cfg, root, "", 0, true)), '\n') == Texts(Entries(cfg, root, "", 0, true)) + [""]
  {
    var es := Entries(cfg, root, "", 0, true);
    forall i | 0 <= i < |es| ensures '\n' !in EntryText(es[i]) {
      ReachableAt(cfg, root, "", 0, true, es[i]);
      PrefixOneLineAt(cfg, root, "", 0, true, es[i]);
      EntryTextOneLine(es[i]);
    }
    LinesSplit(es);
  }

  /** Past the depth bound, no child contributes a line. */
  lemma {:induction false} KidsBeyondBound(cfg: Config, parent: Node, prefix: string, depth: nat, count: nat)
    requires count <= |ShownChildren(cfg, parent)|
    requires depth > cfg.maxDepth
    ensures KidsEntries(cfg, parent, prefix, depth, count) == []
    decreases count
  {
    if count > 0 {
      KidsBeyondBound(cfg, parent, prefix, depth, count - 1);
    }
  }

  /** Entries at depth `max_depth` are shown, but none of their children are. */
  lemma AtMaxDepthNoChildren(cfg: Config, n: Node, p: string, l: bool)
    requires cfg.maxDepth >= 1
    ensures Entries(cfg, n, p, cfg.maxDepth, l) == [Entry(p, l, n, cfg.maxDepth)]
  {
    KidsBeyondBound(cfg, n, ChildPrefix(p, cfg.maxDepth, l), cfg.maxDepth + 1, |ShownChildren(cfg, n)|);
  }

  /** A directory that cannot be listed is still one line, with no children and no error. */
  lemma DeniedDirectoryIsOneLine(cfg: Config, name: string, p: string, d: nat, l: bool)
    requires 1 <= d <= cfg.maxDepth
    ensures RenderAt(cfg, Dir(name, Denied), p, d, l)
         == p + (if l then Elbow else Tee) + FolderIcon + " " + name + "/" + "\n"
  {
    var e := Entry(p, l, Dir(name, Denied), d);
    assert ShownChildren(cfg, Dir(name, Denied)) == [];
    assert Entries(cfg, Dir(name, Denied), p, d, l) == [e] + [];
    LinesCons(e, []);
  }

  /** With `max_depth == 0` the tree block holds only the root line. */
  lemma DepthZeroShowsOnlyRoot(cfg: Config, root: Node)
    requires cfg.maxDepth == 0
    ensures Render(cfg, root) == Fence + RootLine + Fence
  {
    KidsBeyondBound(cfg, root, "", 1, |ShownChildren(cfg, root)|);
    assert Entries(cfg, root, "", 0, true) == [];
  }
}
