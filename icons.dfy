/** `get_file_icon`: the icon shown before a file name. The table is looked up
    first with the whole name, then with the name's extension as `Path.suffix`
    computes it; names found in neither get the generic file icon. Directories
    always get the folder icon. */
module Icons {
  import opened Strings

  const FolderIcon: string := "📁"
  const DefaultIcon: string := "📄"

  /** The fixed icon table, in its written order: extension keys (with their
      dot) and whole-name keys, each given once. */
  const IconTable: seq<(string, string)> := [
    (".f90", "📊"), (".f95", "📊"), (".f03", "📊"), (".f08", "📊"),
    (".py", "🐍"), (".js", "📜"), (".ts", "📘"), (".java", "☕"),
    (".cpp", "⚡"), (".c", "🔧"), (".h", "📄"), (".hpp", "📄"),
    (".md", "📖"), (".txt", "📄"), (".json", "📋"), (".yaml", "⚙️"), (".yml", "⚙️"),
    (".xml", "📦"), (".html", "🌐"), (".css", "🎨"),
    ("Makefile", "🛠️"), ("Dockerfile", "🐳"),
    (".gitignore", "👁️"), (".dockerignore", "🐳"),
    ("LICENSE", "📜"), ("README", "📖")
  ]

  datatype Option<T> = None | Some(value: T)

  /** Dictionary lookup: the value of the first pair at or after position `from`
      whose key is `key`. (Naming the key in the decreases clause keeps the
      verifier from evaluating a lookup whose key is not a literal.) */
  function LookupFrom(table: seq<(string, string)>, key: string, from: nat): Option<string>
    decreases |table| - from, |key|
  {
    if from >= |table| then None
    else if table[from].0 == key then Some(table[from].1)
    else LookupFrom(table, key, from + 1)
  }

  /** Dictionary lookup over the whole table: whatever it finds is stored
      with the key. */
  function Lookup(table: seq<(string, string)>, key: string): (found: Option<string>)
    ensures found.Some? ==> exists i | 0 <= i < |table| :: table[i].0 == key && table[i].1 == found.value
  {
    LookupFromFinds(table, key, 0);
    LookupFrom(table, key, 0)
  }

  /** Searching from `from` succeeds exactly for the keys held at or after
      `from`, and then returns the value stored with the first such occurrence. */
  lemma {:induction false} LookupFromFinds(table: seq<(string, string)>, key: string, from: nat)
    ensures LookupFrom(table, key, from).Some? <==> exists i | from <= i < |table| :: table[i].0 == key
    ensures LookupFrom(table, key, from).Some? ==>
      exists i | from <= i < |table| :: table[i].0 == key && table[i].1 == LookupFrom(table, key, from).value
        && forall j | from <= j < i :: table[j].0 != key
    decreases |table| - from
  {
    if from < |table| && table[from].0 != key {
      LookupFromFinds(table, key, from + 1);
    }
  }

  /** A lookup succeeds exactly for the keys in the table, and then returns the
      value stored with the first occurrence of the key. */
  lemma LookupFinds(table: seq<(string, string)>, key: string)
    ensures Lookup(table, key).Some? <==> exists i | 0 <= i < |table| :: table[i].0 == key
    ensures Lookup(table, key).Some? ==>
      exists i | 0 <= i < |table| :: table[i].0 == key && table[i].1 == Lookup(table, key).value
        && forall j | 0 <= j < i :: table[j].0 != key
  {
    LookupFromFinds(table, key, 0);
  }

  /** The first occurrence of a key decides the lookup. */
  lemma LookupAt(table: seq<(string, string)>, key: string, i: nat)
    requires i < |table| && table[i].0 == key
    requires forall j | 0 <= j < i :: table[j].0 != key
    ensures Lookup(table, key) == Some(table[i].1)
  {
    LookupFinds(table, key);
    var k :| 0 <= k < |table| && table[k].0 == key && table[k].1 == Lookup(table, key).value
      && forall j | 0 <= j < k :: table[j].0 != key;
    assert k == i;
  }

  /** A key held by no pair is not found. */
  lemma LookupAbsent(table: seq<(string, string)>, key: string)
    requires forall i | 0 <= i < |table| :: table[i].0 != key
    ensures Lookup(table, key) == None
  {
    LookupFinds(table, key);
  }

  /** `s.rfind(c)`: the position of the last `c` in `s`, or -1 when there is none. */
  function RFind(s: string, c: char): (i: int)
    ensures -1 <= i < |s|
    ensures i >= 0 ==> s[i] == c
    ensures forall j | i < j < |s| :: s[j] != c
  {
    if |s| == 0 then -1
    else if s[|s| - 1] == c then |s| - 1
    else RFind(s[..|s| - 1], c)
  }

  /** `PurePath(name).suffix`: from the last dot to the end, provided that dot is
      neither the first nor the last character; otherwise empty. A non-empty
      extension is a dot and at least one more character, it ends the name, and
      it is not the whole name. */
  function Suffix(name: string): (ext: string)
    ensures ext != [] ==> |ext| >= 2 && |ext| < |name| && ext[0] == '.' && EndsWith(name, ext)
  {
    var i := RFind(name, '.');
    if 0 < i < |name| - 1 then name[i..] else ""
  }

  /** An extension holds no dot after its first character, and a name has one
      exactly when its last dot is neither its first nor its last character. */
  lemma SuffixShape(name: string)
    ensures var ext := Suffix(name);
      ext != [] ==> forall j | 1 <= j < |ext| :: ext[j] != '.'
    ensures Suffix(name) != [] <==>
      exists k | 0 < k < |name| - 1 :: name[k] == '.' && forall j | k < j < |name| :: name[j] != '.'
  {
    var i := RFind(name, '.');
    if 0 < i < |name| - 1 {
      assert forall j | 1 <= j < |name| - i :: name[i..][j] == name[i + j];
    }
  }

  /** `get_file_icon(filename)`: the whole name is looked up first, then the
      extension, and a name found in neither gets the generic file icon. */
  function FileIcon(name: string): (icon: string)
    ensures icon == DefaultIcon || exists i | 0 <= i < |IconTable| :: IconTable[i].1 == icon
  {
    match Lookup(IconTable, name)
    case Some(icon) => icon
    case None =>
      match Lookup(IconTable, Suffix(name))
      case Some(icon) => icon
      case None => DefaultIcon
  }

  /** No icon holds a line break. */
  lemma IconIsOneLine(name: string)
    ensures '\n' !in FileIcon(name)
  {
    forall i | 0 <= i < |IconTable| ensures '\n' !in IconTable[i].1 {
    }
  }

  /** The lookup order: whole name, then extension, then the generic icon. */
  lemma IconLookupOrder(name: string)
    ensures Lookup(IconTable, name).Some? ==> FileIcon(name) == Lookup(IconTable, name).value
    ensures Lookup(IconTable, name).None? && Lookup(IconTable, Suffix(name)).Some?
      ==> FileIcon(name) == Lookup(IconTable, Suffix(name)).value
    ensures Lookup(IconTable, name).None? && Lookup(IconTable, Suffix(name)).None? ==> FileIcon(name) == DefaultIcon
  {
  }

  /** A name with no dot after its first character and no whole-name entry gets
      the generic icon: it has no extension to look up. */
  lemma NoExtensionGetsDefault(name: string)
    requires forall i | 0 <= i < |IconTable| :: IconTable[i].0 != name
    requires forall k | 0 < k < |name| :: name[k] != '.'
    ensures FileIcon(name) == DefaultIcon
  {
    SuffixShape(name);
    assert Suffix(name) == [];
    KeysNonEmpty();
    IconDefault(name);
  }

  /** Every key of the table is a non-empty name. */
  lemma KeysNonEmpty()
    ensures forall i | 0 <= i < |IconTable| :: IconTable[i].0 != []
  {
  }

  /** The extension of a name whose last dot sits at `k`, strictly inside the name. */
  lemma SuffixAt(name: string, k: nat)
    requires 0 < k < |name| - 1 && name[k] == '.'
    requires forall j | k < j < |name| :: name[j] != '.'
    ensures Suffix(name) == name[k..]
  {
  }

  /** A name that is a key gets that key's icon, whatever its extension. */
  lemma IconByName(name: string, i: nat)
    requires i < |IconTable| && IconTable[i].0 == name
    requires forall j | 0 <= j < i :: IconTable[j].0 != name
    ensures FileIcon(name) == IconTable[i].1
  {
    LookupAt(IconTable, name, i);
  }

  /** A name that is not a key gets its extension's icon when the extension is a key. */
  lemma IconByExtension(name: string, i: nat)
    requires forall k | 0 <= k < |IconTable| :: IconTable[k].0 != name
    requires i < |IconTable| && IconTable[i].0 == Suffix(name)
    requires forall j | 0 <= j < i :: IconTable[j].0 != Suffix(name)
    ensures FileIcon(name) == IconTable[i].1
  {
    LookupAbsent(IconTable, name);
    LookupAt(IconTable, Suffix(name), i);
  }

  /** A name that is not a key and whose extension is not a key gets the generic icon. */
  lemma IconDefault(name: string)
    requires forall k | 0 <= k < |IconTable| :: IconTable[k].0 != name
    requires forall k | 0 <= k < |IconTable| :: IconTable[k].0 != Suffix(name)
    ensures FileIcon(name) == DefaultIcon
  {
    LookupAbsent(IconTable, name);
    LookupAbsent(IconTable, Suffix(name));
  }

  /** `README.md` is not a key, so its extension `.md` decides (the `README` key is not used). */
  lemma ReadmeUsesExtension(name: string)
    requires name == "README.md"
    ensures Suffix(name) == ".md" && FileIcon(name) == "📖"
  {
    SuffixAt(name, 6);
    assert name[6..] == ".md";
    IconByExtension(name, 12);
  }

  /** `.gitignore` has no extension (its only dot is the first character) and is found by name. */
  lemma DotfileFoundByName(name: string)
    requires name == ".gitignore"
    ensures Suffix(name) == "" && FileIcon(name) == "👁️"
  {
    assert forall k | 0 < k < |name| :: name[k] != '.';
    SuffixShape(name);
    IconByName(name, 22);
  }

  /** `main.py` is not a key, so its extension `.py` decides. */
  lemma PythonFileByExtension(name: string)
    requires name == "main.py"
    ensures Suffix(name) == ".py" && FileIcon(name) == "🐍"
  {
    SuffixAt(name, 4);
    assert name[4..] == ".py";
    IconByExtension(name, 4);
  }

  /** Extensions are looked up case-sensitively: `MAIN.PY` is not a Python file. */
  lemma ExtensionIsCaseSensitive(name: string)
    requires name == "MAIN.PY"
    ensures Suffix(name) == ".PY" && FileIcon(name) == DefaultIcon
  {
    SuffixAt(name, 4);
    assert name[4..] == ".PY";
    IconDefault(name);
  }

  /** Only the last extension counts: `archive.tar.gz` is looked up as `.gz`. */
  lemma OnlyLastExtensionCounts(name: string)
    requires name == "archive.tar.gz"
    ensures Suffix(name) == ".gz" && FileIcon(name) == DefaultIcon
  {
    SuffixAt(name, 11);
    assert name[11..] == ".gz";
    IconDefault(name);
  }
}
