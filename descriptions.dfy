/** `generate_directory_descriptions`: one bullet line per directory directly
    under the root that the directory rule keeps, in the order the listing
    returns them, each with a fixed description or a generic one. Unlike the
    tree, this listing of the root is not guarded: a root that is a file or
    cannot be read makes the whole call fail. */
module Descriptions {
  import opened Strings
  import opened FileTree
  import opened Exclusion

  /** The directories that have their own description. */
  const KnownDescriptions: map<string, string> := map[
    "src" := "源代码目录，包含所有核心模块和实现",
    "test" := "测试目录，包含单元测试和性能测试",
    "apps" := "应用示例目录，展示库的实际使用方式",
    "docs" := "文档目录（如存在）",
    "examples" := "使用示例目录（如存在）",
    "scripts" := "脚本工具目录（如存在）"
  ]

  /** The description of every other directory. */
  const GenericDescription: string := "项目相关目录"

  /** `descriptions.get(name, '项目相关目录')`. */
  function Describe(name: string): (text: string)
    ensures name in KnownDescriptions ==> text == KnownDescriptions[name]
    ensures name !in KnownDescriptions ==> text == GenericDescription
  {
    if name in KnownDescriptions then KnownDescriptions[name] else GenericDescription
  }

  /** No description spans more than one line. */
  lemma DescriptionIsOneLine(name: string)
    ensures '\n' !in Describe(name)
  {
    if name in KnownDescriptions {
      assert name in {"src", "test", "apps", "docs", "examples", "scripts"};
    }
  }

  /** The root entries that get a line: directories the directory rule keeps,
      in listing order. Files never get one, whatever their name. */
  function DescribedDirs(cfg: Config, entries: seq<Node>): (dirs: seq<Node>)
    ensures |dirs| <= |entries|
    ensures forall x | x in dirs :: x in entries && x.Dir? && !DirExcluded(cfg.excludeDirs, x.name)
  {
    if |entries| == 0 then []
    else
      var last := entries[|entries| - 1];
      DescribedDirs(cfg, entries[..|entries| - 1])
        + (if last.Dir? && !DirExcluded(cfg.excludeDirs, last.name) then [last] else [])
  }

  /** Every directory of the listing that is not excluded is described. */
  lemma {:induction false} DescribedDirsMembers(cfg: Config, entries: seq<Node>)
    ensures forall x :: x in DescribedDirs(cfg, entries) <==> x in entries && x.Dir? && !DirExcluded(cfg.excludeDirs, x.name)
  {
    if |entries| > 0 {
      var front := entries[..|entries| - 1];
      DescribedDirsMembers(cfg, front);
      assert entries == front + [entries[|entries| - 1]];
    }
  }

  /** Selecting the described directories commutes with concatenating listings,
      so their relative order is the listing's own order. */
  lemma {:induction false} DescribedDirsAppend(cfg: Config, a: seq<Node>, b: seq<Node>)
    ensures DescribedDirs(cfg, a + b) == DescribedDirs(cfg, a) + DescribedDirs(cfg, b)
    decreases |b|
  {
    if |b| == 0 {
      assert a + b == a;
    } else {
      var b' := b[..|b| - 1];
      assert (a + b)[..|a + b| - 1] == a + b';
      DescribedDirsAppend(cfg, a, b');
    }
  }

  /** The bullet line of one directory: its name in bold with a trailing slash,
      a colon, then its description. It is a single line whenever the name is. */
  function DescLine(name: string): (line: string)
    ensures '\n' !in name ==> '\n' !in line
  {
    DescriptionIsOneLine(name);
    "- **" + name + "/**: " + Describe(name)
  }

  function DescLines(dirs: seq<Node>): (lines: seq<string>)
    ensures |lines| == |dirs|
  {
    seq(|dirs|, i requires 0 <= i < |dirs| => DescLine(dirs[i].name))
  }

  lemma DescLinesSnoc(dirs: seq<Node>, d: Node)
    ensures DescLines(dirs + [d]) == DescLines(dirs) + [DescLine(d.name)]
  {
  }

  /** The text for one successful listing of the root: empty exactly when no
      directory is described. */
  function DescriptionText(cfg: Config, entries: seq<Node>): (text: string)
    ensures text == "" <==> DescribedDirs(cfg, entries) == []
  {
    Join(DescLines(DescribedDirs(cfg, entries)), "\n")
  }

  /** `generate_directory_descriptions()` on the root: the text, or the error
      that listing the root raises. */
  function DirectoryDescriptions(cfg: Config, root: Node): (r: Result<string>)
    ensures r.Ok? <==> root.Dir? && root.listing.Listed?
  {
    match ListDir(root)
    case Ok(entries) => Ok(DescriptionText(cfg, entries))
    case Err(e) => Err(e)
  }

  /** The error is the one listing the root raises: not a directory for a file,
      permission denied for an unreadable directory. */
  lemma DescriptionsError(cfg: Config, root: Node)
    ensures root.File? ==> DirectoryDescriptions(cfg, root) == Err(NotADirectory)
    ensures root.Dir? && root.listing.Denied? ==> DirectoryDescriptions(cfg, root) == Err(PermissionDenied)
  {
  }

  /** Each described directory is exactly one line of the text, in listing
      order, provided no directory name holds a line break. */
  lemma OneLinePerDirectory(cfg: Config, entries: seq<Node>)
    requires forall x | x in entries :: '\n' !in x.name
    requires DescribedDirs(cfg, entries) != []
    ensures Split(DescriptionText(cfg, entries), '\n') == DescLines(DescribedDirs(cfg, entries))
  {
    var dirs := DescribedDirs(cfg, entries);
    DescribedDirsMembers(cfg, entries);
    var lines := DescLines(dirs);
    forall i | 0 <= i < |lines| ensures '\n' !in lines[i] {
      assert dirs[i] in entries;
      DescriptionIsOneLine(dirs[i].name);
      assert lines[i] == "- **" + dirs[i].name + "/**: " + Describe(dirs[i].name);
    }
    SplitJoin(lines, '\n');
  }

  /** With no directory to describe the section body is empty. */
  lemma NoDirectoriesNoText(cfg: Config, entries: seq<Node>)
    requires forall x | x in entries :: x.File? || DirExcluded(cfg.excludeDirs, x.name)
    ensures DescriptionText(cfg, entries) == ""
  {
    var dirs := DescribedDirs(cfg, entries);
    DescribedDirsMembers(cfg, entries);
    assert forall i | 0 <= i < |dirs| :: dirs[i] in entries;
  }
}
