/** The part of the filesystem the generator looks at, as a value: every entry
    has a name and is either a file or a directory; listing a directory either
    yields its entries, in the order the operating system returns them, or fails
    with a permission error. */
module FileTree {

  datatype Listing =
    | Listed(entries: seq<Node>)
    | Denied

  datatype Node =
    | File(name: string)
    | Dir(name: string, listing: Listing)

  /** The entries a successful listing of `n` returns; nothing for a file or a
      directory that cannot be listed. */
  function Children(n: Node): (kids: seq<Node>)
    ensures n.File? || n.listing.Denied? ==> kids == []
  {
    if n.Dir? && n.listing.Listed? then n.listing.entries else []
  }

  /** Why listing a path fails: it cannot be read, or it is not a directory. */
  datatype ListError = PermissionDenied | NotADirectory

  datatype Result<T> = Ok(value: T) | Err(error: ListError)

  /** `path.iterdir()` where nothing catches its failure: the entries of a
      readable directory, an error for an unreadable one or for a file. */
  function ListDir(n: Node): (r: Result<seq<Node>>)
    ensures r.Ok? <==> n.Dir? && n.listing.Listed?
    ensures r.Ok? ==> r.value == Children(n)
    ensures r == Err(NotADirectory) <==> n.File?
    ensures r == Err(PermissionDenied) <==> n.Dir? && n.listing.Denied?
  {
    match n
    case File(_) => Err(NotADirectory)
    case Dir(_, Denied) => Err(PermissionDenied)
    case Dir(_, Listed(entries)) => Ok(entries)
  }
}
