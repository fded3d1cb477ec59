/** The `ProjectStructure` object: its settings, fixed by the constructor, and the
    methods that walk the tree. Each method is proved to produce exactly what the
    corresponding function of `Renderer`, `Descriptions` or `Report` specifies, so
    the properties proved about those functions hold of the methods' results. */
module Generator {
  import opened Strings
  import opened FileTree
  import opened Exclusion
  import opened Icons
  import opened Renderer
  import opened RenderProperties
  import opened Descriptions
  import opened Report

  lemma ConcatSingle(a: string)
    ensures Concat([a]) == a
  {
    assert [a][1..] == [];
  }

  lemma ConcatPair(a: string, b: string)
    ensures Concat([a] + [b]) == a + b
  {
    assert ([a] + [b])[1..] == [b];
    ConcatSingle(b);
  }

  /** The line the method builds for a node below the root is its entry's line. */
  lemma OwnLineText(prefix: string, isLast: bool, node: Node, depth: nat)
    ensures EntryLine(Entry(prefix, isLast, node, depth))
         == if node.Dir? then prefix + (if isLast then Elbow else Tee) + FolderIcon + " " + node.name + "/" + "\n"
            else prefix + (if isLast then Elbow else Tee) + FileIcon(node.name) + " " + node.name + "\n"
  {
  }

  /** The children the loop visits are entries of the directory being listed. */
  lemma ShownChildIsEntry(cfg: Config, node: Node, index: nat)
    requires index < |ShownChildren(cfg, node)|
    ensures node.Dir? && node.listing.Listed? && ShownChildren(cfg, node)[index] in node.listing.entries
  {
    assert ShownChildren(cfg, node)[index] in Children(node);
  }

  /** Below the root a rendering is just the lines of the entries. */
  lemma RenderBelowRoot(cfg: Config, n: Node, prefix: string, depth: nat, isLast: bool)
    requires depth >= 1
    ensures RenderAt(cfg, n, prefix, depth, isLast) == Lines(Entries(cfg, n, prefix, depth, isLast))
  {
  }

  /** Appending the text of child `index` extends the text of the children before it. */
  lemma ChildAppended(cfg: Config, node: Node, childPrefix: string, depth: nat, index: nat,
                      head: string, output: seq<string>, kid: Node, kidPrefix: string, kidIsLast: bool, sub: string)
    requires index < |ShownChildren(cfg, node)| && depth >= 1
    requires kid == ShownChildren(cfg, node)[index]
    requires kidPrefix == childPrefix && kidIsLast == (index == |ShownChildren(cfg, node)| - 1)
    requires Concat(output) == head + Lines(KidsEntries(cfg, node, childPrefix, depth, index))
    requires sub == RenderAt(cfg, kid, kidPrefix, depth, kidIsLast)
    ensures Concat(output + [sub]) == head + Lines(KidsEntries(cfg, node, childPrefix, depth, index + 1))
  {
    KidsEntriesStep(cfg, node, childPrefix, depth, index);
    RenderBelowRoot(cfg, kid, kidPrefix, depth, kidIsLast);
    var before := KidsEntries(cfg, node, childPrefix, depth, index);
    var child := Entries(cfg, kid, kidPrefix, depth, kidIsLast);
    LinesAppend(before, child);
    ConcatSnoc(output, sub);
    AppendAssociative(head, Lines(before), Lines(child));
  }

  /** At the root, once all children are written, the closing fence completes
      the rendering. */
  lemma RootRenderingComplete(cfg: Config, node: Node, prefix: string, depth: nat, isLast: bool, text: string)
    requires depth == 0 <= cfg.maxDepth
    requires text == Fence + RootLine
                   + Lines(KidsEntries(cfg, node, ChildPrefix(prefix, depth, isLast), depth + 1, |ShownChildren(cfg, node)|))
    ensures RenderAt(cfg, node, prefix, depth, isLast) == text + Fence
  {
    EntriesAtRoot(cfg, node, prefix, depth, isLast);
  }

  /** Below the root, the node's own line followed by the lines of all its
      children is its whole rendering. */
  lemma BranchRenderingComplete(cfg: Config, node: Node, prefix: string, depth: nat, isLast: bool, text: string)
    requires 1 <= depth <= cfg.maxDepth
    requires text == EntryLine(Entry(prefix, isLast, node, depth))
                   + Lines(KidsEntries(cfg, node, ChildPrefix(prefix, depth, isLast), depth + 1, |ShownChildren(cfg, node)|))
    ensures RenderAt(cfg, node, prefix, depth, isLast) == text
  {
    var kids := KidsEntries(cfg, node, ChildPrefix(prefix, depth, isLast), depth + 1, |ShownChildren(cfg, node)|);
    EntriesBelowRoot(cfg, node, prefix, depth, isLast);
    LinesCons(Entry(prefix, isLast, node, depth), kids);
  }

  class ProjectStructure {
    const rootDir: Node
    const excludeDirs: set<string>
    const excludeFiles: set<string>
    const maxDepth: int

    /** The settings every walk consults; `__init__` fixes them and nothing changes them later. */
    function Settings(): Config {
      Config(excludeDirs, excludeFiles, maxDepth)
    }

    /** `__init__`: the caller's patterns (`[]`, the default, stands for `None`)
        first, then the defaults added to them; the depth bound defaults to 4. */
    constructor (rootDir: Node, excludeDirs: seq<string> := [], excludeFiles: seq<string> := [], maxDepth: int := 4)
      ensures this.rootDir == rootDir && this.maxDepth == maxDepth
      ensures this.excludeDirs == Merge(excludeDirs, DefaultExcludeDirs)
      ensures this.excludeFiles == Merge(excludeFiles, DefaultExcludeFiles)
    {
      var dirs := set p | p in excludeDirs;
      var files := set p | p in excludeFiles;
      dirs := dirs + DefaultExcludeDirs;
      files := files + DefaultExcludeFiles;
      this.rootDir := rootDir;
      this.excludeDirs := dirs;
      this.excludeFiles := files;
      this.maxDepth := maxDepth;
    }

    /** `should_exclude(path, is_dir)`: the patterns are tried one at a time, in
        no particular order, and the first match decides. */
    method ShouldExclude(name: string, isDir: bool) returns (excluded: bool)
      ensures excluded <==> if isDir then DirExcluded(excludeDirs, name) else FileExcluded(excludeFiles, name)
    {
      if isDir {
        if name in excludeDirs {
          DirExactMatchIsContainment(excludeDirs, name);
          return true;
        }
        var rest := excludeDirs;
        while rest != {}
          invariant rest <= excludeDirs
          invariant forall p | p in excludeDirs && p !in rest :: !IsSubstring(p, name)
          decreases |rest|
        {
          var p :| p in rest;
          if IsSubstring(p, name) {
            return true;
          }
          rest := rest - {p};
        }
        return false;
      } else {
        if name in excludeFiles {
          return true;
        }
        var rest := excludeFiles;
        while rest != {}
          invariant rest <= excludeFiles
          invariant forall p | p in excludeFiles && p !in rest :: !WildcardMatches(p, name)
          decreases |rest|
        {
          var p :| p in rest;
          if |p| > 0 && p[0] == '*' && EndsWith(name, p[1..]) {
            assert WildcardMatches(p, name);
            return true;
          }
          rest := rest - {p};
        }
        return false;
      }
    }

    /** The listing comprehension: the entries `should_exclude` keeps, each judged
        by its own kind, in listing order. */
    method KeptEntries(entries: seq<Node>) returns (kept: seq<Node>)
      ensures kept == Visible(Settings(), entries)
    {
      kept := [];
      var i := 0;
      while i < |entries|
        invariant 0 <= i <= |entries|
        invariant kept == Visible(Settings(), entries[..i])
      {
        var excluded := ShouldExclude(entries[i].name, entries[i].Dir?);
        assert entries[..i + 1][..i] == entries[..i];
        if !excluded {
          kept := kept + [entries[i]];
        }
        i := i + 1;
      }
      assert entries[..i] == entries;
    }

    /** The listing of a readable directory as `generate_structure` walks it:
        the kept entries, sorted by name. */
    method ShownItems(node: Node) returns (items: seq<Node>)
      requires node.Dir? && node.listing.Listed?
      ensures items == ShownChildren(Settings(), node)
    {
      var visible := KeptEntries(node.listing.entries);
      items := SortByName(visible);
    }

    /** The opening pieces of `generate_structure`: at depth 0 the fence and the
        root line, below it the node's own line, whose connector says whether it
        is the last of its siblings and whose icon says what it is. */
    static method OpeningPieces(node: Node, prefix: string, depth: nat, isLast: bool) returns (output: seq<string>)
      ensures Concat(output) == if depth == 0 then Fence + RootLine else EntryLine(Entry(prefix, isLast, node, depth))
    {
      output := [];
      if depth == 0 {
        output := output + [Fence];
        output := output + [RootLine];
        ConcatPair(Fence, RootLine);
      } else {
        var connector := if isLast then Elbow else Tee;
        if node.Dir? {
          output := output + [prefix + connector + FolderIcon + " " + node.name + "/" + "\n"];
        } else {
          var icon := FileIcon(node.name);
          output := output + [prefix + connector + icon + " " + node.name + "\n"];
        }
        OwnLineText(prefix, isLast, node, depth);
        ConcatSingle(output[0]);
      }
    }

    /** The prefix handed to the children: the parent's prefix extended by a
        blank or a bar column, except under the root, where it is empty. */
    static method NextPrefix(prefix: string, depth: nat, isLast: bool) returns (newPrefix: string)
      ensures newPrefix == ChildPrefix(prefix, depth, isLast)
    {
      newPrefix := prefix + (if isLast then Blank else Bar);
      if depth == 0 {
        newPrefix := "";
      }
    }

    /** `generate_structure(current_path, prefix, depth, is_last)`: the pieces are
        collected in a list and joined at the end. Depth 0 stands for the root,
        which is always shown as `.`. */
    method GenerateStructure(node: Node, prefix: string, depth: nat, isLast: bool) returns (s: string)
      ensures s == RenderAt(Settings(), node, prefix, depth, isLast)
      decreases node, 2
    {
      if depth > maxDepth {
        return "";
      }
      var output := OpeningPieces(node, prefix, depth, isLast);
      ghost var head := Concat(output);
      if node.Dir? && node.listing.Listed? {
        output := AppendChildren(node, prefix, depth, isLast, output);
      } else {
        NoShownChildren(Settings(), node);
        NoKidsYet(Settings(), node, ChildPrefix(prefix, depth, isLast), depth + 1);
        AppendEmpty(head);
      }
      if depth == 0 {
        RootRenderingComplete(Settings(), node, prefix, depth, isLast, Concat(output));
        ConcatSnoc(output, Fence);
        output := output + [Fence];
      } else {
        BranchRenderingComplete(Settings(), node, prefix, depth, isLast, Concat(output));
      }
      s := Concat(output);
    }

    /** The loop of `generate_structure` over the sorted, kept children of a
        readable directory: the text of each child is appended in turn. */
    method AppendChildren(node: Node, prefix: string, depth: nat, isLast: bool, output: seq<string>)
      returns (extended: seq<string>)
      requires node.Dir? && node.listing.Listed?
      ensures Concat(extended) == Concat(output)
                + Lines(KidsEntries(Settings(), node, ChildPrefix(prefix, depth, isLast), depth + 1, |ShownChildren(Settings(), node)|))
      decreases node, 1
    {
      var items := ShownItems(node);
      ghost var head := Concat(output);
      NoKidsYet(Settings(), node, ChildPrefix(prefix, depth, isLast), depth + 1);
      AppendEmpty(head);
      extended := output;
      var index := 0;
      while index < |items|
        invariant 0 <= index <= |items|
        invariant Concat(extended) == head + Lines(KidsEntries(Settings(), node, ChildPrefix(prefix, depth, isLast), depth + 1, index))
      {
        extended := AppendChild(node, items, prefix, depth, isLast, index, extended, head);
        index := index + 1;
      }
    }

    /** One turn of the loop of `generate_structure` over the sorted, kept
        children of `node`: the text of child `index` is appended to the pieces. */
    method AppendChild(node: Node, items: seq<Node>, prefix: string, depth: nat, isLast: bool, index: nat,
                       output: seq<string>, ghost head: string) returns (extended: seq<string>)
      requires items == ShownChildren(Settings(), node) && index < |items|
      requires Concat(output) == head + Lines(KidsEntries(Settings(), node, ChildPrefix(prefix, depth, isLast), depth + 1, index))
      ensures |extended| == |output| + 1 && extended[..|output|] == output
      ensures Concat(extended) == head + Lines(KidsEntries(Settings(), node, ChildPrefix(prefix, depth, isLast), depth + 1, index + 1))
      decreases node, 0
    {
      var isLastItem := index == |items| - 1;
      var newPrefix := NextPrefix(prefix, depth, isLast);
      ShownChildIsEntry(Settings(), node, index);
      var child := items[index];
      var childDepth := depth + 1;
      var sub := GenerateStructure(child, newPrefix, childDepth, isLastItem);
      ChildAppended(Settings(), node, ChildPrefix(prefix, depth, isLast), childDepth, index, head, output,
                    child, newPrefix, isLastItem, sub);
      extended := output + [sub];
    }

    /** `generate_directory_descriptions()`: the root's entries in listing order,
        one line per kept directory, joined by line breaks; listing the root may
        fail, and nothing catches it. */
    method GenerateDirectoryDescriptions() returns (r: Result<string>)
      ensures r == DirectoryDescriptions(Settings(), rootDir)
    {
      match rootDir {
        case File(_) =>
          return Err(NotADirectory);
        case Dir(_, Denied) =>
          return Err(PermissionDenied);
        case Dir(_, Listed(entries)) =>
          ghost var cfg := Settings();
          var output: seq<string> := [];
          var i := 0;
          while i < |entries|
            invariant 0 <= i <= |entries|
            invariant output == DescLines(DescribedDirs(cfg, entries[..i]))
          {
            assert entries[..i + 1][..i] == entries[..i];
            var described := false;
            if entries[i].Dir? {
              var excluded := ShouldExclude(entries[i].name, true);
              described := !excluded;
            }
            if described {
              assert DescribedDirs(cfg, entries[..i + 1]) == DescribedDirs(cfg, entries[..i]) + [entries[i]];
              DescLinesSnoc(DescribedDirs(cfg, entries[..i]), entries[i]);
              output := output + [DescLine(entries[i].name)];
            } else {
              assert DescribedDirs(cfg, entries[..i + 1]) == DescribedDirs(cfg, entries[..i]);
            }
            i := i + 1;
          }
          assert entries[..i] == entries;
          return Ok(Join(output, "\n"));
      }
    }

    /** `generate_markdown(title)`: the tree first, then the descriptions, whose
        failure is the document's. */
    method GenerateMarkdown(title: string := DefaultTitle) returns (r: Result<string>)
      ensures r == Markdown(Settings(), rootDir, title)
    {
      var structure := GenerateStructure(rootDir, "", 0, true);
      var descriptions := GenerateDirectoryDescriptions();
      match descriptions {
        case Err(e) =>
          return Err(e);
        case Ok(text) =>
          return Ok("# " + title + "\n\n" + structure + "\n\n" + DescriptionsHeading + "\n\n" + text + "\n\n");
      }
    }
  }
}
