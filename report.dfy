/** `generate_markdown`: the document that puts the title, the fenced tree and
    the directory descriptions together. The tree never fails, but the
    descriptions do when the root cannot be listed, and then so does the whole
    document. */
module Report {
  import opened Strings
  import opened FileTree
  import opened Exclusion
  import opened Renderer
  import opened RenderProperties
  import opened Descriptions

  const DefaultTitle: string := "项目文件结构"
  const DescriptionsHeading: string := "## 目录说明"

  /** The document for a given tree text and descriptions text: the title line,
      a blank line and the tree come first; after them a blank line, the
      descriptions heading, a blank line and the descriptions close it, and it
      ends with a blank line. */
  function Document(title: string, tree: string, descriptions: string): (doc: string)
    ensures StartsWith(doc, "# " + title + "\n\n" + tree)
    ensures EndsWith(doc, "\n\n" + DescriptionsHeading + "\n\n" + descriptions + "\n\n")
    ensures EndsWith(doc, "\n\n")
  {
    var head := "# " + title + "\n\n" + tree;
    var mid := "\n\n" + DescriptionsHeading + "\n\n" + descriptions;
    var doc := "# " + title + "\n\n" + tree + "\n\n" + DescriptionsHeading + "\n\n" + descriptions + "\n\n";
    assert doc == head + mid + "\n\n";
    Framed(head, mid, "\n\n");
    assert doc == head + [] + (mid + "\n\n");
    Framed(head, [], mid + "\n\n");
    doc
  }

  /** `generate_markdown(title)`: the document, or the error raised while
      describing the root's directories. */
  function Markdown(cfg: Config, root: Node, title: string): (r: Result<string>)
    ensures r.Ok? <==> root.Dir? && root.listing.Listed?
    ensures r.Err? ==> r == DirectoryDescriptions(cfg, root)
  {
    match DirectoryDescriptions(cfg, root)
    case Ok(text) => Ok(Document(title, Render(cfg, root), text))
    case Err(e) => Err(e)
  }

  /** Whatever opens the tree opens the document right after the title line. */
  lemma TreeFollowsTitle(title: string, tree: string, descriptions: string, opening: string)
    requires StartsWith(tree, opening)
    ensures StartsWith(Document(title, tree, descriptions), "# " + title + "\n\n" + opening)
  {
    var head := "# " + title + "\n\n";
    StartsWithPrepend(head, tree, opening);
    StartsWithTransitive(Document(title, tree, descriptions), head + tree, head + opening);
  }

  /** The document opens with the title line and a blank line, then the fenced
      tree with its root line; it closes with the descriptions heading and the
      descriptions of the root's directories, and ends with a blank line. */
  lemma MarkdownLayout(cfg: Config, root: Node, title: string)
    requires cfg.maxDepth >= 0
    requires root.Dir? && root.listing.Listed?
    ensures Markdown(cfg, root, title).Ok?
    ensures StartsWith(Markdown(cfg, root, title).value, "# " + title + "\n\n" + Fence + RootLine)
    ensures EndsWith(Markdown(cfg, root, title).value,
      "\n\n" + DescriptionsHeading + "\n\n" + DescriptionText(cfg, root.listing.entries) + "\n\n")
    ensures EndsWith(Markdown(cfg, root, title).value, "\n\n")
  {
    var text := DescriptionText(cfg, root.listing.entries);
    TreeFollowsTitle(title, Render(cfg, root), text, Fence + RootLine);
  }

  /** With a negative depth bound the tree part is empty: the title is followed
      directly by the descriptions heading, with no code fences at all. */
  lemma NegativeDepthDocument(cfg: Config, root: Node, title: string)
    requires cfg.maxDepth < 0
    requires root.Dir? && root.listing.Listed?
    ensures Markdown(cfg, root, title)
         == Ok("# " + title + "\n\n\n\n" + DescriptionsHeading + "\n\n"
               + DescriptionText(cfg, root.listing.entries) + "\n\n")
  {
    var text := DescriptionText(cfg, root.listing.entries);
    assert "# " + title + "\n\n" + "" == "# " + title + "\n\n";
    assert "# " + title + "\n\n" + "\n\n" == "# " + title + "\n\n\n\n";
  }
}
