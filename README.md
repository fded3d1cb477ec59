# generate_structure in Dafny

A verified model of `generate_structure.py`, a utility that draws a project's
directory tree as a fenced Markdown block and lists its top-level directories
with short descriptions. The model covers the whole `ProjectStructure` class:

- the constructor, which merges the caller's exclusion patterns with the built-in ones;
- `should_exclude`, where directories match by substring and files by exact name or `*suffix`;
- `get_file_icon`, which tries the whole name, then `Path.suffix`, then a generic icon;
- the recursive `generate_structure`, with its depth bound, code fences and `./` root line,
  filtered and sorted children, `├── `/`└── ` connectors and inherited indentation,
  and the swallowed `PermissionError`;
- `generate_directory_descriptions`, in listing order, where a failure to list the root propagates;
- `generate_markdown`.

The filesystem is a value (`FileTree.Node`): a file, or a directory whose
listing either returns its entries in the operating system's order or fails
with a permission error. `get_file_icon` reads no field of the object, so it
is the function `Icons.FileIcon`; every other source method is a method of the
class `Generator.ProjectStructure`. Where the source loops and appends to a
list, the model does the same, and each method is proved equal to a
specification function:

- `Renderer.RenderAt` for the tree;
- `Descriptions.DirectoryDescriptions` for the descriptions;
- `Report.Markdown` for the document.

The properties are proved about those functions: the depth bound, the root
framing, prefixes and connectors, exclusion of whole subtrees, sorted and
complete sibling lists, one line per entry, and one line per described
directory.

Modules, one per file:

| file | module | contents |
|---|---|---|
| strings.dfy | `Strings` | `startswith`, `endswith`, `in`, `"".join`, `sep.join`, `split`, and Python's string order |
| file_tree.dfy | `FileTree` | the tree value, `iterdir` as `ListDir` |
| exclusion.dfy | `Exclusion` | default patterns, the merge, the directory and file rules |
| icons.dfy | `Icons` | the icon table, dictionary lookup, `Path.suffix`, `FileIcon` |
| render.dfy | `Renderer` | the tree as a sequence of entries and as text |
| render_properties.dfy | `RenderProperties` | what the rendered tree promises |
| descriptions.dfy | `Descriptions` | the descriptions section |
| report.dfy | `Report` | the Markdown document |
| project_structure.dfy | `Generator` | the class `ProjectStructure` and its methods |

With a negative `max_depth`, `generate_structure` returns `""` at once, because
`depth > max_depth` already holds at depth 0: no fences and no root line are
produced (`Renderer.Render`, `Report.NegativeDepthDocument`).

## Model

| member | source | states |
|---|---|---|
| Exclusion.Merge | generate_structure.py:15-30 | the merged set holds exactly the caller's patterns and the defaults, so every default is in it |
| Generator.ProjectStructure.constructor | generate_structure.py:13-30 | the object's pattern sets are the caller's patterns merged with the defaults, with no caller patterns when none are passed; the root is stored as given and the depth bound defaults to 4 |
| Generator.ProjectStructure.ShouldExclude | generate_structure.py:32-45 | the pattern loop returns true exactly when the rule for the entry's kind holds: for a directory, some pattern occurs in the name; for a file, the name is a pattern or ends in the remainder of a `*` pattern |
| Exclusion.DirExactMatchIsContainment | generate_structure.py:37 | the exact-name test of the directory rule is subsumed by the containment test |
| Exclusion.DirContainmentExcludes | generate_structure.py:37 | any directory name that contains a pattern at some position is excluded |
| Exclusion.BuildExcludesLookalikes | generate_structure.py:20-37 | whatever the caller passes, `my_build` and `build_output_2024` are excluded by the default `build` |
| Exclusion.DefaultsCannotBeRemoved | generate_structure.py:20-30 | every name a default pattern excludes stays excluded after the merge, for directories and for files |
| Exclusion.PlainPatternsMatchWholeNames | generate_structure.py:40-45 | with no `*` pattern, a file is excluded if and only if its name is one of the patterns |
| Exclusion.WildcardExcludesSuffix | generate_structure.py:42-44 | a `*S` pattern excludes every file name ending in `S` |
| Exclusion.FileExcluded | generate_structure.py:40-45 | a file is excluded only when some pattern's text ends its name: the whole pattern for an exact match, what follows `*` for a wildcard |
| Exclusion.ObjectFileExamples | generate_structure.py:24-45 | `main.o` is excluded by the default `*.o`, but a bare `.o` pattern would not exclude it |
| FileTree.Children | generate_structure.py:93-95 | a file or an unreadable directory has no entries to walk |
| FileTree.ListDir | generate_structure.py:143 | `iterdir` succeeds exactly on a readable directory and returns its entries; it fails with not-a-directory on a file and permission-denied on an unreadable directory |
| Icons.Lookup | generate_structure.py:61-66 | whatever a lookup finds is the value of a pair whose key is the one looked up |
| Icons.LookupFinds | generate_structure.py:61-66 | a dictionary lookup succeeds if and only if the key is in the table, and then yields the value stored with it |
| Icons.LookupAt | generate_structure.py:61-66 | the first pair holding a key decides the lookup |
| Icons.LookupAbsent | generate_structure.py:61-66 | a key held by no pair is not found |
| Icons.RFind | generate_structure.py:65 | the result is -1 or the index of the last occurrence of the character |
| Icons.Suffix | generate_structure.py:65 | a non-empty extension starts with a dot followed by at least one character, ends the name and is shorter than it |
| Icons.SuffixShape | generate_structure.py:65 | a non-empty extension holds no dot after its first character; a name has one if and only if its last dot is neither its first nor its last character |
| Icons.SuffixAt | generate_structure.py:65 | when the last dot sits strictly inside the name, the extension runs from that dot to the end |
| Icons.FileIcon | generate_structure.py:47-66 | every icon returned is a value of the table or the generic `📄` |
| Icons.IconIsOneLine | generate_structure.py:49-66 | no icon contains a line break |
| Icons.IconLookupOrder | generate_structure.py:60-66 | a whole-name hit wins; otherwise an extension hit; otherwise the generic icon |
| Icons.KeysNonEmpty | generate_structure.py:49-58 | no key of the table is empty |
| Icons.IconByName | generate_structure.py:61-62 | a name that is a key gets that key's icon, whatever its extension |
| Icons.IconByExtension | generate_structure.py:64-66 | a name that is not a key gets the icon of its extension when the extension is a key |
| Icons.IconDefault | generate_structure.py:64-66 | a name that is not a key, and whose extension is not one either, gets `📄` |
| Icons.NoExtensionGetsDefault | generate_structure.py:64-66 | a name that is not a key and has no dot after its first character gets `📄` |
| Icons.ReadmeUsesExtension | generate_structure.py:49-66 | `README.md` has extension `.md` and gets `📖` through it, not through the `README` key |
| Icons.DotfileFoundByName | generate_structure.py:56-62 | `.gitignore` has no extension and gets its icon through the whole-name key |
| Icons.PythonFileByExtension | generate_structure.py:51-66 | `main.py` has extension `.py` and gets `🐍` |
| Icons.ExtensionIsCaseSensitive | generate_structure.py:64-66 | `MAIN.PY` has extension `.PY`, which is not a key, so it gets `📄` |
| Icons.OnlyLastExtensionCounts | generate_structure.py:64-66 | `archive.tar.gz` is looked up as `.gz` only, and gets `📄` |
| Renderer.VisibleMembers | generate_structure.py:95-96 | the filtered listing holds exactly the entries that `should_exclude` keeps, each judged by its own kind |
| Renderer.SortByName | generate_structure.py:95 | sorting returns as many entries as it was given |
| Renderer.SortByNameSorted | generate_structure.py:95 | `sorted` returns a permutation of the kept entries, ascending by name |
| Renderer.InsertByNameSorted | generate_structure.py:95 | inserting one entry into a sorted list keeps it sorted |
| Renderer.InsertByNameCount | generate_structure.py:95 | inserting one entry adds exactly that entry and nothing else |
| Renderer.ShownChildren | generate_structure.py:93-96 | every child rendered under a node is one of its listed entries |
| Renderer.ShownChildrenExact | generate_structure.py:93-96 | the rendered children are exactly the kept entries, each as often as the listing returns it, in ascending name order |
| Renderer.ShownChildKept | generate_structure.py:93-96 | a rendered child belongs to a readable directory's listing and is not excluded |
| Renderer.NoShownChildren | generate_structure.py:93-109 | a file or a directory whose listing fails shows no children |
| Renderer.ChildPrefix | generate_structure.py:100-103 | children of the root get the empty prefix; deeper children get a prefix four characters longer than their parent's |
| Renderer.ChildPrefixExtends | generate_structure.py:100 | below the root, the child prefix is the parent's prefix followed by four blanks when the parent was last, and by a bar column otherwise |
| Renderer.EntriesAtRoot | generate_structure.py:80-107 | within the bound, the root contributes no entry line of its own; its entries are those of its children |
| Renderer.EntriesBelowRoot | generate_structure.py:84-107 | within the bound and below the root, the node's own line comes first, then the lines of its children |
| Renderer.RenderAt | generate_structure.py:68-114 | past the depth bound the rendering is the empty string; at depth 0 within the bound it opens with the fence and `./`, whatever the root is called, and closes with the fence |
| Renderer.Render | generate_structure.py:68-114 | `generate_structure()` with its default arguments yields nothing at all (no fences, no root line) when `max_depth < 0`, and otherwise a block that opens with the fence and `./` and closes with the fence |
| RenderProperties.DepthBound | generate_structure.py:70-71 | no entry is deeper than `max_depth` or shallower than where rendering started, and the root is never an entry |
| RenderProperties.AtMaxDepthNoChildren | generate_structure.py:70-107 | a node at depth `max_depth` is a single line; none of its children appear |
| RenderProperties.DepthZeroShowsOnlyRoot | generate_structure.py:68-114 | with `max_depth == 0` the block is the fence, `./`, the fence |
| RenderProperties.PrefixLength | generate_structure.py:100-103 | each level below the first adds exactly four characters of prefix |
| RenderProperties.RootPrefixLength | generate_structure.py:100-103 | rendered from the root, an entry at depth d has a prefix of exactly 4·(d−1) characters |
| RenderProperties.RootPrefixLengthAt | generate_structure.py:100-103 | the same for one entry |
| RenderProperties.ChildPrefixOneLine | generate_structure.py:100-103 | indentation adds no line break |
| RenderProperties.ReachableThrough | generate_structure.py:95-107 | descending into a kept entry of a readable directory reaches that entry and whatever lies below it |
| RenderProperties.ExcludedNeverShown | generate_structure.py:93-107 | every line of the tree shows a node reached from the root through kept entries only, so neither an excluded entry nor anything below it appears |
| RenderProperties.OwnLineFirst | generate_structure.py:84-90 | within the bound, a node below the root opens its block with its own line |
| RenderProperties.SiblingLines | generate_structure.py:98-107 | when the children's depth is within the depth bound, every kept child gets a line with the prefix its parent hands down, marked last exactly when it is the last in sorted order |
| RenderProperties.KidsWithinEntries | generate_structure.py:98-107 | the lines of a node's children are part of the node's rendering |
| RenderProperties.ConnectorMarksLast | generate_structure.py:84 | a line starts with prefix + `└── ` if and only if its entry is last among its siblings, and with prefix + `├── ` if and only if it is not |
| RenderProperties.EntryTextOneLine | generate_structure.py:84-90 | a line's text contains no line break when its prefix and its name contain none |
| RenderProperties.OneLinePerEntry | generate_structure.py:84-107 | splitting the tree lines at line breaks yields exactly the entries' texts, in output order, one per entry, when no name contains a line break |
| RenderProperties.DeniedDirectoryIsOneLine | generate_structure.py:93-109 | a directory whose listing is denied is rendered as its own line alone, with no error |
| RenderProperties.LinesCons | generate_structure.py:105-114 | joining a line before other lines puts its text first |
| RenderProperties.KidsEntriesStep | generate_structure.py:98-107 | the lines of the first i+1 children extend those of the first i with child i's lines, which are marked last only for the last child |
| RenderProperties.KidsSplit | generate_structure.py:98-107 | a line among the first n children's lines belongs to child n−1 or to an earlier one |
| RenderProperties.KidsContainLast | generate_structure.py:98-107 | child i's lines are among the lines of the first i+1 children |
| RenderProperties.KidsContainGrow | generate_structure.py:98-107 | a line among the first n−1 children's lines stays one once child n−1 follows |
| RenderProperties.EntriesSplit | generate_structure.py:79-107 | a rendered entry is the node's own line (below the root) or one of its children's lines, and rendering happens only within the bound |
| RenderProperties.EntryOrigin | generate_structure.py:79-107 | a rendered entry is the node's own line or lies in the rendering of a kept entry of the node's listing |
| Descriptions.Describe | generate_structure.py:133-146 | a directory in the fixed map gets its description; any other gets `项目相关目录` |
| Descriptions.DescriptionIsOneLine | generate_structure.py:133-146 | no description contains a line break |
| Descriptions.DescribedDirs | generate_structure.py:143-144 | never more directories than entries, and each one an entry of the listing that is a directory kept by the directory rule |
| Descriptions.DescribedDirsMembers | generate_structure.py:143-144 | the described entries are exactly the root's directories that the directory rule keeps; files never are |
| Descriptions.DescribedDirsAppend | generate_structure.py:143-144 | selection commutes with concatenating listings, so the listing order is kept and nothing is sorted |
| Descriptions.DescLine | generate_structure.py:145-147 | the bullet line of a directory whose name has no line break has none either |
| Descriptions.DescLines | generate_structure.py:147 | one bullet line per described directory |
| Descriptions.DescLinesSnoc | generate_structure.py:143-147 | appending a directory appends its bullet line |
| Descriptions.DescriptionText | generate_structure.py:142-149 | the text is empty if and only if no directory is described |
| Descriptions.DirectoryDescriptions | generate_structure.py:131-149 | the call succeeds if and only if the root can be listed |
| Descriptions.DescriptionsError | generate_structure.py:143 | listing a file root fails with not-a-directory and an unreadable root with permission-denied; nothing catches either |
| Descriptions.OneLinePerDirectory | generate_structure.py:143-149 | when at least one directory is described and no name contains a line break, splitting the text at line breaks yields exactly one bullet line per described directory, in listing order |
| Descriptions.NoDirectoriesNoText | generate_structure.py:142-149 | with no directory to describe the text is empty |
| Report.Markdown | generate_structure.py:116-129 | the document is produced if and only if the root can be listed; otherwise the error from the descriptions propagates |
| Report.Document | generate_structure.py:120-128 | the document starts with the title line, a blank line and the tree; it ends with a blank line, the `## 目录说明` heading, a blank line, the descriptions and a blank line |
| Report.TreeFollowsTitle | generate_structure.py:118-122 | whatever opens the tree opens the document right after the title line |
| Report.MarkdownLayout | generate_structure.py:116-129 | for a readable root and a non-negative bound, the document starts with the title, a blank line, the fence and `./`, and ends with the descriptions heading and the root's descriptions followed by a blank line |
| Report.NegativeDepthDocument | generate_structure.py:116-129 | with `max_depth < 0` the title is followed directly by the descriptions heading, with no fences |
| Generator.OwnLineText | generate_structure.py:84-90 | the line built for a node below the root is its prefix, connector, icon (`📁` for a directory), a space, its name, `/` for a directory, and a line break |
| Generator.ShownChildIsEntry | generate_structure.py:95-98 | each child the loop visits is an entry of the directory being listed |
| Generator.RenderBelowRoot | generate_structure.py:83-107 | below the root the rendering is just the lines of the entries |
| Generator.ChildAppended | generate_structure.py:105-107 | appending the text of child i extends the text of the children before it by that child's lines |
| Generator.RootRenderingComplete | generate_structure.py:111-114 | at the root, the collected pieces followed by the closing fence are the whole rendering |
| Generator.BranchRenderingComplete | generate_structure.py:84-114 | below the root, the node's own line followed by its children's lines is the whole rendering |
| Generator.ProjectStructure.KeptEntries | generate_structure.py:95-96 | the list comprehension yields the filtered listing, in listing order |
| Generator.ProjectStructure.ShownItems | generate_structure.py:95-96 | the items walked are the kept entries sorted by name |
| Generator.ProjectStructure.OpeningPieces | generate_structure.py:76-90 | at depth 0 the pieces are the fence and `./`; below it they are the node's own line |
| Generator.ProjectStructure.NextPrefix | generate_structure.py:100-103 | the prefix handed to the children is the one `Renderer.ChildPrefix` computes: empty under the root, otherwise the parent's prefix extended by four blanks or a bar column |
| Generator.ProjectStructure.GenerateStructure | generate_structure.py:68-114 | the joined pieces equal the specified rendering, so every property proved about `RenderAt` holds of the method's result |
| Generator.ProjectStructure.AppendChildren | generate_structure.py:98-107 | the loop appends the texts of all the kept, sorted children, in order |
| Generator.ProjectStructure.AppendChild | generate_structure.py:99-107 | one turn of the loop appends exactly the text of child i, rendered with the right prefix and last-flag |
| Generator.ProjectStructure.GenerateDirectoryDescriptions | generate_structure.py:131-149 | the method returns the specified descriptions, or the error from listing the root |
| Generator.ProjectStructure.GenerateMarkdown | generate_structure.py:116-129 | the method returns the specified document, or the error from the descriptions |

## Left out

- The constructor's default `root_dir='.'` is not modelled: the root is a tree value the caller always passes. The other defaults (no extra patterns, `max_depth=4`, the title `项目文件结构`) are.
- `main`, argument parsing, writing the output file and printing (generate_structure.py:151-178) are input and output plumbing and are not modelled.
- The real filesystem is replaced by a tree value, so `iterdir` and `is_dir` are not modelled as calls. The value leaves out:
  - symbolic links and cycles;
  - entries that change during the walk;
  - `is_dir` raising an error;
  - operating-system errors other than a denied listing, which the source does not catch.
- Sorting is modelled as code-point order of the names. Paths with the same parent compare by name, and names in one directory are distinct. Platforms that compare paths case-insensitively are not modelled.
- `Icons.Suffix` follows `PurePath.suffix` as it behaves up to Python 3.13: a name whose only dot is the first or the last character has no extension.
- Emoji and box-drawing glyphs are plain strings. Their display width and grapheme structure are not modelled.
- The two dictionaries are modelled differently. The icon dictionary is an association list searched from the front; its keys are distinct, so this is the same as `dict` lookup. The descriptions dictionary is a Dafny `map`.
- `should_exclude` iterates over a Python `set`, whose order is unspecified. The model picks patterns in an arbitrary order, and its contract holds whatever that order is.
- The body of the source's child loop is split into its own method, `Generator.ProjectStructure.AppendChild`, and the loop itself is `Generator.ProjectStructure.AppendChildren`. The list comprehension with `sorted` is `Generator.ProjectStructure.ShownItems`.
- Generator.ProjectStructure.OpeningPieces: the root line is tied to depth 0, not to the node being equal to `root_dir` as in the source. `Renderer.RenderAt` and `Generator.ProjectStructure.GenerateStructure` share this. A direct call at depth 0 on another node prints `./` where the source prints that node's name. A direct call on the root at a depth above 0 prints the root's name where the source prints `.`. The program itself only calls the method from the root at depth 0, and there both agree.
- RenderProperties.OneLinePerEntry: assumes no name in the walked tree contains a line break. POSIX names may contain one, and then the source emits more text lines than entries.
- Descriptions.OneLinePerDirectory: assumes no name contains a line break, for the same reason.
