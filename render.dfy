/** What `generate_structure` prints, stated as a function of the tree and the
    configuration. The rendering is described in two layers: `Entries` lists the
    tree lines in output order (prefix, connector choice, node, depth), and
    `RenderAt` turns them into text, adding the code fences and the root line at
    depth 0. `ProjectStructure.GenerateStructure` is proved to produce exactly
    `RenderAt`. */
module Renderer {
  import opened Strings
  import opened FileTree
  import opened Exclusion
  import opened Icons

  const Fence: string := "```\n"
  /** The root is always shown as `.`, whatever it is called. */
  const RootLine: string := "./\n"
  const Tee: string := "├── "
  const Elbow: string := "└── "
  /** Indentation under a parent that was the last of its siblings. */
  const Blank: string := "    "
  /** Indentation under a parent that has later siblings. */
  const Bar: string := "│   "

  /** The entries of a listing that survive `should_exclude`, in listing order. */
  function Visible(cfg: Config, kids: seq<Node>): seq<Node> {
    if |kids| == 0 then []
    else
      var last := kids[|kids| - 1];
      Visible(cfg, kids[..|kids| - 1]) + (if Excluded(cfg, last) then [] else [last])
  }

  /** Exactly the kept entries survive. */
  lemma {:induction false} VisibleMembers(cfg: Config, kids: seq<Node>)
    ensures forall x :: x in Visible(cfg, kids) <==> x in kids && !Excluded(cfg, x)
    decreases |kids|
  {
    if |kids| > 0 {
      var init := kids[..|kids| - 1];
      VisibleMembers(cfg, init);
      assert kids == init + [kids[|kids| - 1]];
    }
  }

  predicate SortedByName(s: seq<Node>) {
    forall i, j {:trigger NameLe(s[i].name, s[j].name)} | 0 <= i < j < |s| :: NameLe(s[i].name, s[j].name)
  }

  /** Every name in `s` is at least `a`. */
  predicate NamesAtLeast(a: string, s: seq<Node>) {
    forall j | 0 <= j < |s| :: NameLe(a, s[j].name)
  }

  lemma BelowFirstIsBelowAll(a: string, s: seq<Node>)
    requires SortedByName(s) && s != [] && NameLe(a, s[0].name)
    ensures NamesAtLeast(a, s)
  {
    forall j | 0 < j < |s| ensures NameLe(a, s[j].name) {
      NameLeTransitive(a, s[0].name, s[j].name);
    }
  }

  lemma NamesAtLeastPermutation(a: string, s: seq<Node>, x: Node, r: seq<Node>)
    requires NamesAtLeast(a, s) && NameLe(a, x.name)
    requires multiset(r) == multiset(s) + multiset{x}
    ensures NamesAtLeast(a, r)
  {
    forall j | 0 <= j < |r| ensures NameLe(a, r[j].name) {
      assert r[j] in multiset(r);
      if r[j] != x {
        assert r[j] in multiset(s);
        var k :| 0 <= k < |s| && s[k] == r[j];
      }
    }
  }

  lemma ConsSorted(y: Node, r: seq<Node>)
    requires SortedByName(r) && NamesAtLeast(y.name, r)
    ensures SortedByName([y] + r)
  {
  }

  /** Inserts `x` before the first element whose name is not smaller, which keeps
      equal names in their original order, as Python's stable sort does. */
  function InsertByName(x: Node, s: seq<Node>): seq<Node> {
    if |s| == 0 then [x]
    else if NameLe(x.name, s[0].name) then [x] + s
    else [s[0]] + InsertByName(x, s[1..])
  }

  /** Inserting adds exactly `x`. */
  lemma {:induction false} InsertByNameCount(x: Node, s: seq<Node>)
    ensures |InsertByName(x, s)| == |s| + 1
    ensures multiset(InsertByName(x, s)) == multiset(s) + multiset{x}
  {
    if |s| > 0 && !NameLe(x.name, s[0].name) {
      InsertByNameCount(x, s[1..]);
      assert s == [s[0]] + s[1..];
    }
  }

  /** Inserting keeps a sorted sequence sorted. */
  lemma {:induction false} InsertByNameSorted(x: Node, s: seq<Node>)
    requires SortedByName(s)
    ensures SortedByName(InsertByName(x, s))
  {
    if |s| == 0 {
    } else if NameLe(x.name, s[0].name) {
      BelowFirstIsBelowAll(x.name, s);
      ConsSorted(x, s);
    } else {
      NameLeTotal(x.name, s[0].name);
      var rest := InsertByName(x, s[1..]);
      assert s == [s[0]] + s[1..];
      InsertByNameSorted(x, s[1..]);
      InsertByNameCount(x, s[1..]);
      NamesAtLeastPermutation(s[0].name, s[1..], x, rest);
      ConsSorted(s[0], rest);
    }
  }

  /** `sorted(...)` on the entries of one directory: ascending by name. Sorting
      neither drops nor adds an entry. */
  function SortByName(s: seq<Node>): (sorted: seq<Node>)
    ensures |sorted| == |s|
  {
    if |s| == 0 then []
    else
      InsertByNameCount(s[0], SortByName(s[1..]));
      InsertByName(s[0], SortByName(s[1..]))
  }

  /** Sorting yields a sorted permutation of its input. */
  lemma {:induction false} SortByNameSorted(s: seq<Node>)
    ensures SortedByName(SortByName(s))
    ensures multiset(SortByName(s)) == multiset(s)
  {
    if |s| > 0 {
      SortByNameSorted(s[1..]);
      InsertByNameSorted(s[0], SortByName(s[1..]));
      InsertByNameCount(s[0], SortByName(s[1..]));
      assert s == [s[0]] + s[1..];
    }
  }

  /** The children rendered under `n`: its non-excluded entries in ascending name
      order (none for a file or an unreadable directory). */
  function ShownChildren(cfg: Config, n: Node): (kids: seq<Node>)
    ensures forall x | x in kids :: x in Children(n)
  {
    var visible := Visible(cfg, Children(n));
    var kids := SortByName(visible);
    SortByNameSorted(visible);
    VisibleMembers(cfg, Children(n));
    assert forall x | x in kids :: x in multiset(visible);
    kids
  }

  /** The children rendered under a directory are exactly its kept entries, in
      ascending name order, each as often as the listing returns it. */
  lemma ShownChildrenExact(cfg: Config, n: Node)
    ensures forall x :: x in ShownChildren(cfg, n) <==> x in Children(n) && !Excluded(cfg, x)
    ensures SortedByName(ShownChildren(cfg, n))
    ensures multiset(ShownChildren(cfg, n)) == multiset(Visible(cfg, Children(n)))
  {
    var visible := Visible(cfg, Children(n));
    SortByNameSorted(visible);
    VisibleMembers(cfg, Children(n));
    assert forall x :: x in ShownChildren(cfg, n) <==> x in multiset(visible);
  }

  /** Each child rendered under a directory is one of its entries that
      `should_exclude` keeps. */
  lemma ShownChildKept(cfg: Config, n: Node, kid: Node)
    requires kid in ShownChildren(cfg, n)
    ensures n.Dir? && n.listing.Listed?
    ensures kid in n.listing.entries && !Excluded(cfg, kid)
  {
    ShownChildrenExact(cfg, n);
  }

  datatype Entry = Entry(prefix: string, isLast: bool, node: Node, depth: nat)

  /** The prefix handed to the children of a node: empty under the root,
      otherwise the node's prefix extended by blank or bar indentation. */
  function ChildPrefix(prefix: string, depth: nat, isLast: bool): (childPrefix: string)
    ensures depth == 0 ==> |childPrefix| == 0
    ensures depth >= 1 ==> |childPrefix| == |prefix| + 4
  {
    if depth == 0 then "" else prefix + (if isLast then Blank else Bar)
  }

  /** Below the root, a child's prefix extends its parent's by one level of
      indentation, blank exactly when the parent was last. */
  lemma ChildPrefixExtends(prefix: string, depth: nat, isLast: bool)
    requires depth >= 1
    ensures StartsWith(ChildPrefix(prefix, depth, isLast), prefix)
    ensures ChildPrefix(prefix, depth, isLast)[|prefix|..] == if isLast then Blank else Bar
  {
    var c := ChildPrefix(prefix, depth, isLast);
    assert c[..|prefix|] == prefix;
  }

  /** The tree lines below and including `n` (excluding the root, which is not an
      entry), in output order, or nothing once `depth` exceeds the bound. */
  function Entries(cfg: Config, n: Node, prefix: string, depth: nat, isLast: bool): seq<Entry>
    decreases n, 1
  {
    if depth > cfg.maxDepth then []
    else if depth == 0 then KidsEntries(cfg, n, ChildPrefix(prefix, depth, isLast), depth + 1, |ShownChildren(cfg, n)|)
    else [Entry(prefix, isLast, n, depth)] + KidsEntries(cfg, n, ChildPrefix(prefix, depth, isLast), depth + 1, |ShownChildren(cfg, n)|)
  }

  /** Within the bound, the root contributes no line of its own: its entries
      are those of its children. */
  lemma EntriesAtRoot(cfg: Config, n: Node, prefix: string, depth: nat, isLast: bool)
    requires depth == 0 <= cfg.maxDepth
    ensures Entries(cfg, n, prefix, depth, isLast)
         == KidsEntries(cfg, n, ChildPrefix(prefix, depth, isLast), depth + 1, |ShownChildren(cfg, n)|)
  {
  }

  /** Within the bound and below the root, a node's own line comes first,
      followed by the entries of its children. */
  lemma EntriesBelowRoot(cfg: Config, n: Node, prefix: string, depth: nat, isLast: bool)
    requires 1 <= depth <= cfg.maxDepth
    ensures Entries(cfg, n, prefix, depth, isLast)
         == [Entry(prefix, isLast, n, depth)] + KidsEntries(cfg, n, ChildPrefix(prefix, depth, isLast), depth + 1, |ShownChildren(cfg, n)|)
  {
  }

  /** The lines of the first `count` children shown under `parent`, child after
      child; only the last of them all is rendered as last. */
  function KidsEntries(cfg: Config, parent: Node, prefix: string, depth: nat, count: nat): seq<Entry>
    requires count <= |ShownChildren(cfg, parent)|
    decreases parent, 0, count
  {
    if count == 0 then []
    else
      var kids := ShownChildren(cfg, parent);
      assert kids[count - 1] in Children(parent);
      assert kids[count - 1] in parent.listing.entries;
      KidsEntries(cfg, parent, prefix, depth, count - 1)
      + Entries(cfg, kids[count - 1], prefix, depth, count - 1 == |kids| - 1)
  }

  /** None of the children taken yet: no lines. */
  lemma NoKidsYet(cfg: Config, parent: Node, prefix: string, depth: nat)
    ensures Lines(KidsEntries(cfg, parent, prefix, depth, 0)) == ""
  {
  }

  /** A file or an unreadable directory shows no children. */
  lemma NoShownChildren(cfg: Config, n: Node)
    requires !(n.Dir? && n.listing.Listed?)
    ensures |ShownChildren(cfg, n)| == 0
  {
  }

  /** The text of one tree line, without its newline. */
  function EntryText(e: Entry): string {
    var connector := if e.isLast then Elbow else Tee;
    if e.node.Dir? then e.prefix + connector + FolderIcon + " " + e.node.name + "/"
    else e.prefix + connector + FileIcon(e.node.name) + " " + e.node.name
  }

  function EntryLine(e: Entry): string {
    EntryText(e) + "\n"
  }

  function Lines(es: seq<Entry>): string {
    if |es| == 0 then "" else EntryLine(es[0]) + Lines(es[1..])
  }

  /** `generate_structure(current_path, prefix, depth, is_last)`: the lines of
      the entries, and at depth 0 (when the bound allows it at all) the opening
      fence and the root line before them and the closing fence after them.
      Past the depth bound the result is the empty string; at the root within
      the bound it opens with the fence and `./`, whatever the root is called,
      and closes with the fence. */
  function RenderAt(cfg: Config, n: Node, prefix: string, depth: nat, isLast: bool): (text: string)
    ensures depth > cfg.maxDepth ==> text == ""
    ensures depth == 0 <= cfg.maxDepth ==> StartsWith(text, Fence + RootLine) && EndsWith(text, Fence)
  {
    if depth == 0 && cfg.maxDepth >= 0 then
      Framed(Fence + RootLine, Lines(Entries(cfg, n, prefix, depth, isLast)), Fence);
      Fence + RootLine + Lines(Entries(cfg, n, prefix, depth, isLast)) + Fence
    else Lines(Entries(cfg, n, prefix, depth, isLast))
  }

  /** `generate_structure()` with its default arguments, on the root: nothing at
      all (no fences and no root line) when `max_depth < 0`, otherwise a fenced
      block that opens with `./`. */
  function Render(cfg: Config, root: Node): (text: string)
    ensures cfg.maxDepth < 0 ==> text == ""
    ensures cfg.maxDepth >= 0 ==> StartsWith(text, Fence + RootLine) && EndsWith(text, Fence)
  {
    RenderAt(cfg, root, "", 0, true)
  }
}
