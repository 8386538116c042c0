/** Exporting a role as an archive and creating a role from one. The zip codec itself is taken as exact: an archive is
    the list of its entries. What an import makes of any entries, what it makes of an export, and for which roles
    the two together give the role back. */
module RoleArchive {
  import opened Wrappers
  import opened Text
  import opened Paths
  import opened FileSystem
  import opened RoleStore
  import opened RoleCreation
  import opened RoleListing

  datatype Entry = Entry(name: string, text: string) {
    /** A zip entry whose name ends in a slash is a directory. */
    predicate IsDirectory() { name != "" && name[|name| - 1] == '/' }
  }

  function Slashes(s: string): (r: string) {
    if s == "" then "" else [if s[0] == '\\' then '/' else s[0]] + Slashes(s[1..])
  }

  function TrimPrefix(s: string, prefix: string): string {
    if prefix <= s then s[|prefix|..] else s
  }

  /** The name under which an archive entry is stored. */
  function StoredName(name: string): string {
    TrimPrefix(TrimPrefix(Slashes(name), "/"), "./")
  }

  predicate IsStored(e: Entry) {
    !e.IsDirectory() && StoredName(e.name) != ""
  }

  /** What the loop over the entries builds: a later entry replaces an earlier one of the same name. */
  function Imported(entries: seq<Entry>): map<string, string>
    decreases |entries|
  {
    if entries == [] then map[]
    else
      var before := Imported(entries[..|entries| - 1]);
      var e := entries[|entries| - 1];
      if IsStored(e) then before[StoredName(e.name) := e.text] else before
  }

  /** A stored name has slashes for backslashes, and no longer the slash or the ./ it began with. */
  lemma {:induction false} StoredNameIs(name: string)
    ensures |Slashes(name)| == |name|
    ensures forall i :: 0 <= i < |name| ==> Slashes(name)[i] == if name[i] == '\\' then '/' else name[i]
    ensures
      var s := Slashes(name);
      StoredName(name) ==
      if "/./" <= s then s[3..] else if "/" <= s then s[1..] else if "./" <= s then s[2..] else s
  {
    if name != "" {
      StoredNameIs(name[1..]);
    }
    var s := Slashes(name);
    assert "/"[0] != "./"[0] && ("/./" <= s <==> "/" <= s && "./" <= s[1..]);
  }

  /** A name is stored when an entry that is no directory comes to it, ... */
  lemma {:induction false} ImportedIff(entries: seq<Entry>, name: string)
    ensures name in Imported(entries) <==>
      name != "" && exists e :: e in entries && !e.IsDirectory() && StoredName(e.name) == name
    decreases |entries|
  {
    if entries != [] {
      hide StoredName;
      var before, last := entries[..|entries| - 1], entries[|entries| - 1];
      ImportedIff(before, name);
      assert forall e :: e in entries <==> e in before || e == last;
    }
  }

  /** ... with the text of the last one. */
  lemma {:induction false} LastEntryWins(entries: seq<Entry>, k: nat)
    requires k < |entries| && !entries[k].IsDirectory() && StoredName(entries[k].name) != ""
    requires forall i :: k < i < |entries| ==>
      entries[i].IsDirectory() || StoredName(entries[i].name) != StoredName(entries[k].name)
    ensures StoredName(entries[k].name) in Imported(entries)
    ensures Imported(entries)[StoredName(entries[k].name)] == entries[k].text
    decreases |entries|
  {
    hide StoredName;
    if k < |entries| - 1 {
      LastEntryWins(entries[..|entries| - 1], k);
    }
  }

  method ParseZipFiles(entries: seq<Entry>) returns (files: map<string, string>)
    ensures files == Imported(entries)
  {
    files := map[];
    for i := 0 to |entries|
      invariant files == Imported(entries[..i])
    {
      assert entries[..i + 1][..i] == entries[..i];
      var e := entries[i];
      if !e.IsDirectory() {
        var name := TrimPrefix(TrimPrefix(Slashes(e.name), "/"), "./");
        if name != "" {
          files := files[name := e.text];
        }
      }
    }
    assert entries[..|entries|] == entries;
  }

  /** The entries written for a listing, the metadata last. */
  function Exported(files: seq<RoleFile>, metadata: string): (entries: seq<Entry>)
    requires forall r :: r in files ==> r.content.Text?
    ensures |entries| == |files| + 1
  {
    seq(|files|, i requires 0 <= i < |files| => Entry(files[i].name, files[i].content.text)) +
      [Entry(METADATA_FILE, metadata)]
  }

  method Export(files: seq<RoleFile>, metadata: string) returns (entries: seq<Entry>)
    requires forall r :: r in files ==> r.content.Text?
    ensures entries == Exported(files, metadata)
  {
    entries := [];
    for i := 0 to |files|
      invariant |entries| == i
      invariant forall j :: 0 <= j < i ==> entries[j] == Entry(files[j].name, files[j].content.text)
    {
      entries := entries + [Entry(files[i].name, files[i].content.text)];
    }
    entries := entries + [Entry(METADATA_FILE, metadata)];
  }

  // Round trip --------------------------------------------------------------------------------

  lemma {:induction false} NoBackslashNoChange(s: string)
    requires '\\' !in s
    ensures Slashes(s) == s
  {
    if s != "" {
      NoBackslashNoChange(s[1..]);
    }
  }

  lemma {:induction false} JoinEndsInPart(p: Path)
    requires p != [] && NormalPath(p)
    ensures Join(p) != "" && Join(p)[|Join(p)| - 1] != '/'
    decreases |p|
  {
    assert p[0] in p;
    if |p| == 1 {
      assert p[0][|p[0]| - 1] in p[0];
    } else {
      assert NormalPath(p[1..]);
      JoinEndsInPart(p[1..]);
    }
  }

  /** A clean name without backslashes is stored as it is. */
  lemma CleanNameIsKept(p: Path, text: string)
    requires p != [] && NormalPath(p) && '\\' !in Join(p)
    ensures IsStored(Entry(Join(p), text)) && StoredName(Join(p)) == Join(p)
  {
    NoBackslashNoChange(Join(p));
    PrintedNameIsClean(p);
    JoinEndsInPart(p);
  }

  ghost predicate KeptApart(entries: seq<Entry>) {
    && (forall e :: e in entries ==> IsStored(e) && StoredName(e.name) == e.name)
    && (forall i, j :: 0 <= i < j < |entries| ==> entries[i].name != entries[j].name)
  }

  /** Clean names that differ keep all their contents. */
  lemma {:induction false} ImportKeepsAll(entries: seq<Entry>)
    requires KeptApart(entries)
    ensures forall n :: n in Imported(entries) <==> exists e :: e in entries && n == e.name
    ensures forall e :: e in entries ==> e.name in Imported(entries) && Imported(entries)[e.name] == e.text
    decreases |entries|
  {
    if entries != [] {
      var before, e := entries[..|entries| - 1], entries[|entries| - 1];
      ImportKeepsAll(before);
      assert entries == before + [e];
      assert forall x :: x in entries <==> x in before || x == e;
      hide IsStored, StoredName;
    }
  }

  /** The files of a role below which no other role lies: all of them are texts. */
  ghost predicate AllTexts(m: Flat, role: Path) {
    Below(m, role) && MetaPath(role) !in m && forall p :: p in m ==> m[p].Text?
  }

  predicate NoBackslash(m: Flat, role: Path) {
    forall p :: p in m && role <= p ==> '\\' !in NameOf(role, p)
  }

  ghost predicate Exportable(m: Flat, role: Path) {
    AllTexts(m, role) && NoBackslash(m, role)
  }

  lemma ListedFile(files: seq<RoleFile>, m: Flat, role: Path, r: RoleFile) returns (p: Path)
    requires IsListing(files, m, role) && Exportable(m, role) && r in files
    ensures p in m && r == RoleFile(NameOf(role, p), m[p]) && m[p].Text?
    ensures p[|role|..] != [] && NormalPath(p[|role|..]) && p == role + p[|role|..]
    ensures Accepted(r.name) && Rel(r.name) == p[|role|..]
    ensures IsStored(Entry(r.name, m[p].text)) && StoredName(r.name) == r.name && r.name != METADATA_FILE
  {
    assert IsEntry(m, role, r);
    p :| p in m && role <= p && r == RoleFile(NameOf(role, p), m[p]);
    TailIsNormal(role, p);
    PrintedNameIsClean(p[|role|..]);
    CleanNameIsKept(p[|role|..], m[p].text);
    PrintedNameIsClean([METADATA_FILE]);
    assert p[|role|..] == [METADATA_FILE] ==> p == MetaPath(role);
  }

  lemma ListedAreTexts(files: seq<RoleFile>, m: Flat, role: Path)
    requires IsListing(files, m, role) && Exportable(m, role)
    ensures forall r :: r in files ==>
      r.content.Text? && r.name != METADATA_FILE && IsStored(Entry(r.name, r.content.text)) &&
        StoredName(r.name) == r.name
  {
    forall r | r in files
      ensures r.content.Text? && r.name != METADATA_FILE
        && IsStored(Entry(r.name, r.content.text)) && StoredName(r.name) == r.name
    {
      var p := ListedFile(files, m, role, r);
    }
  }

  lemma ExportedEntry(files: seq<RoleFile>, metadata: string, e: Entry)
    requires forall r :: r in files ==> r.content.Text?
    ensures e in Exported(files, metadata) <==>
      e == Entry(METADATA_FILE, metadata) || exists r :: r in files && e == Entry(r.name, r.content.text)
  {
    var entries := Exported(files, metadata);
    if e in entries {
      var i :| 0 <= i < |entries| && entries[i] == e;
      assert i < |files| ==> files[i] in files;
    }
    if r :| r in files && e == Entry(r.name, r.content.text) {
      var i :| 0 <= i < |files| && files[i] == r;
      assert entries[i] == e;
    }
    assert entries[|files|] == Entry(METADATA_FILE, metadata);
  }

  lemma ExportedNamesDiffer(files: seq<RoleFile>, metadata: string, i: nat, j: nat)
    requires StrictlySorted(Names(files))
    requires forall r :: r in files ==> r.content.Text? && r.name != METADATA_FILE
    requires i < j <= |files|
    ensures Exported(files, metadata)[i].name != Exported(files, metadata)[j].name
  {
    assert files[i] in files;
    if j < |files| {
      assert Less(Names(files)[i], Names(files)[j]);
      LessIsIrreflexive(Names(files)[i]);
    }
  }

  lemma ExportIsKeptApart(files: seq<RoleFile>, m: Flat, role: Path, metadata: string)
    requires IsListing(files, m, role) && Exportable(m, role)
    ensures forall r :: r in files ==> r.content.Text?
    ensures KeptApart(Exported(files, metadata))
  {
    ListedAreTexts(files, m, role);
    ExportIsStored(files, metadata);
    forall i, j | 0 <= i < j < |Exported(files, metadata)|
      ensures Exported(files, metadata)[i].name != Exported(files, metadata)[j].name
    {
      ExportedNamesDiffer(files, metadata, i, j);
    }
    hide IsStored, StoredName, Exportable, Exported;
  }

  lemma ExportIsStored(files: seq<RoleFile>, metadata: string)
    requires forall r :: r in files ==>
      r.content.Text? && r.name != METADATA_FILE && IsStored(Entry(r.name, r.content.text)) &&
        StoredName(r.name) == r.name
    ensures forall e :: e in Exported(files, metadata) ==> IsStored(e) && StoredName(e.name) == e.name
  {
    hide *;
    MetadataIsStored(metadata);
    forall e | e in Exported(files, metadata)
      ensures IsStored(e) && StoredName(e.name) == e.name
    {
      ExportedEntry(files, metadata, e);
    }
  }

  lemma MetadataIsStored(text: string)
    ensures IsStored(Entry(METADATA_FILE, text)) && StoredName(METADATA_FILE) == METADATA_FILE
  {
    CleanNameIsKept([METADATA_FILE], text);
  }

  /** The data of an archive: the names of the listing with their texts, and the metadata's name. */
  ghost predicate Restored(files: seq<RoleFile>, data: map<string, string>) {
    && (forall n :: n in data <==> n == METADATA_FILE || exists r :: r in files && n == r.name)
    && (forall r :: r in files ==> r.name in data && r.content == Text(data[r.name]))
  }

  lemma {:induction false} SlashesHaveNoBackslash(s: string)
    ensures '\\' !in Slashes(s)
  {
    if s != "" {
      SlashesHaveNoBackslash(s[1..]);
    }
  }

  lemma {:induction false} ImportHasNoBackslash(entries: seq<Entry>)
    ensures forall n :: n in Imported(entries) ==> '\\' !in n
    decreases |entries|
  {
    if entries != [] {
      ImportHasNoBackslash(entries[..|entries| - 1]);
      SlashesHaveNoBackslash(entries[|entries| - 1].name);
    }
  }

  /** Importing an export gives back every name with its text, and the metadata entry, if and only if no
      name holds a backslash. */
  lemma ImportOfExportIff(files: seq<RoleFile>, m: Flat, role: Path, metadata: string)
    requires IsListing(files, m, role) && AllTexts(m, role)
    ensures forall r :: r in files ==> r.content.Text?
    ensures Restored(files, Imported(Exported(files, metadata))) <==> NoBackslash(m, role)
  {
    forall r | r in files
      ensures r.content.Text?
    {
      assert IsEntry(m, role, r);
    }
    hide Imported, Exported, NameOf, StrictlySorted, IsListing, AllTexts, NoBackslash;
    if NoBackslash(m, role) {
      ExportableIff(m, role);
      ImportOfExport(files, m, role, metadata);
    }
    if Restored(files, Imported(Exported(files, metadata))) {
      ImportHasNoBackslash(Exported(files, metadata));
      assert forall r :: r in files ==> '\\' !in r.name;
      NamesAreListed(files, m, role);
    }
  }

  lemma ImportOfExport(files: seq<RoleFile>, m: Flat, role: Path, metadata: string)
    requires IsListing(files, m, role) && Exportable(m, role)
    ensures forall r :: r in files ==> r.content.Text?
    ensures Restored(files, Imported(Exported(files, metadata)))
  {
    hide *;
    ExportIsKeptApart(files, m, role, metadata);
    var entries := Exported(files, metadata);
    ImportKeepsAll(entries);
    ExportedEntry(files, metadata, Entry(METADATA_FILE, metadata));
    forall r | r in files
      ensures Entry(r.name, r.content.text) in entries
    {
      ExportedEntry(files, metadata, Entry(r.name, r.content.text));
    }
    forall e | e in entries
      ensures e.name == METADATA_FILE || exists r :: r in files && e.name == r.name
    {
      ExportedEntry(files, metadata, e);
    }
    EntriesRestore(files, metadata, entries, Imported(entries));
  }

  lemma ExportableIff(m: Flat, role: Path)
    requires AllTexts(m, role)
    ensures Exportable(m, role) <==> NoBackslash(m, role)
  {}

  lemma NamesAreListed(files: seq<RoleFile>, m: Flat, role: Path)
    requires IsListing(files, m, role) && AllTexts(m, role)
    ensures (forall r :: r in files ==> '\\' !in r.name) <==> NoBackslash(m, role)
  {
    hide NameOf, StrictlySorted;
    if forall r :: r in files ==> '\\' !in r.name {
      forall p | p in m && role <= p
        ensures '\\' !in NameOf(role, p)
      {
        var r := RoleFile(NameOf(role, p), m[p]);
        assert IsEntry(m, role, r) && r in files;
      }
    }
    if NoBackslash(m, role) {
      forall r | r in files
        ensures '\\' !in r.name
      {
        assert IsEntry(m, role, r);
        var p :| p in m && role <= p && r == RoleFile(NameOf(role, p), m[p]);
      }
    }
  }

  lemma EntriesRestore(files: seq<RoleFile>, metadata: string, entries: seq<Entry>, data: map<string, string>)
    requires forall r :: r in files ==> r.content.Text? && Entry(r.name, r.content.text) in entries
    requires Entry(METADATA_FILE, metadata) in entries
    requires forall e :: e in entries ==> e.name == METADATA_FILE || exists r :: r in files && e.name == r.name
    requires forall n :: n in data <==> exists e :: e in entries && n == e.name
    requires forall e :: e in entries ==> e.name in data && data[e.name] == e.text
    ensures Restored(files, data)
  {
    forall r | r in files
      ensures r.name in data && r.content == Text(data[r.name])
    {
      assert Entry(r.name, r.content.text) in entries;
    }
  }

  /** Where a stored name of the archive lands below the new role. */
  lemma StoredUnder(files: seq<RoleFile>, m: Flat, role: Path, target: Path, r: RoleFile) returns (p: Path)
    requires IsListing(files, m, role) && Exportable(m, role) && NormalPath(target) && r in files
    ensures p in m && r == RoleFile(NameOf(role, p), m[p]) && role < p
    ensures Accepted(r.name) && Full(target, r.name) == target + p[|role|..]
    ensures r == RoleFile(NameOf(target, Full(target, r.name)), m[p])
  {
    p := ListedFile(files, m, role, r);
    JoinStaysUnder(target, r.name);
    assert (target + p[|role|..])[|target|..] == p[|role|..];
  }

  lemma MetadataUnder(target: Path)
    requires NormalPath(target)
    ensures Accepted(METADATA_FILE) && Full(target, METADATA_FILE) == MetaPath(target)
  {
    PrintedNameIsClean([METADATA_FILE]);
    JoinStaysUnder(target, METADATA_FILE);
  }

  /** No file of the map is at or above another, or above or below the metadata. */
  ghost predicate Leaves(m: Flat, role: Path) {
    (forall p, q :: p in m && q in m ==> !(p < q)) && (forall p :: p in m ==> !(MetaPath(role) < p))
  }

  lemma CoherentFilesAreLeaves(t: Tree, role: Path)
    requires Coherent(t, role)
    ensures Leaves(FlatOf(t, role), role)
  {}

  lemma ArchiveIsStorable(files: seq<RoleFile>, m: Flat, role: Path, target: Path,
                          data: map<string, string>, names: set<string>)
    requires IsListing(files, m, role) && Exportable(m, role) && Leaves(m, role) && NormalPath(target)
    requires names == data.Keys && Restored(files, data)
    ensures Storable(target, names)
  {
    MetadataUnder(target);
    forall n | n in names
      ensures Accepted(n) && Full(target, n) != target && !(MetaPath(target) < Full(target, n))
    {
      if n != METADATA_FILE {
        var r :| r in files && n == r.name;
        var p := StoredUnder(files, m, role, target, r);
        Rerooted(role, target, MetaPath(role), p);
      }
    }
    forall k, l | k in names && l in names
      ensures !(Full(target, k) < Full(target, l))
    {
      if k != METADATA_FILE {
        var r :| r in files && k == r.name;
        var p := StoredUnder(files, m, role, target, r);
        if l != METADATA_FILE {
          var s :| s in files && l == s.name;
          var q := StoredUnder(files, m, role, target, s);
          Rerooted(role, target, p, q);
        }
      }
    }
  }

  lemma Rerooted(role: Path, target: Path, p: Path, q: Path)
    requires role <= p && role <= q
    ensures target + p[|role|..] < target + q[|role|..] <==> p < q
    ensures (target + p[|role|..] == target + q[|role|..]) <==> p == q
  {
    assert p == role + p[|role|..] && q == role + q[|role|..];
    assert (target + p[|role|..])[|target|..] == p[|role|..];
    assert (target + q[|role|..])[|target|..] == q[|role|..];
    var x, y := p[|role|..], q[|role|..];
    if target + x < target + y {
      assert (target + y)[..|target + x|] == target + x;
      assert y[..|x|] == (target + y)[|target|..|target| + |x|] == x;
    }
    if x < y {
      assert (target + y)[..|target + x|] == target + y[..|x|];
    }
  }

  /** A request to create a role from an archive and nothing else. */
  predicate FromArchive(req: Request, data: map<string, string>) {
    req.role in {"", "custom"} && req.initialFiles == [] && req.files == data
  }

  lemma ArchiveIsRequest(b: Option<Builtin>, req: Request, data: map<string, string>)
    requires FromArchive(req, data)
    ensures IsRequested(b, req, data)
  {}

  /** Export, then import under a new name: the new role is there and lists exactly the same files, if and
      only if no file's name holds a backslash. */
  lemma ExportImportRestoresIff(
      t: Tree, role: Path, files: seq<RoleFile>, metadata: string,
      b: Option<Builtin>, t2: Tree, target: Path, req: Request, now: int, t': Tree, ok: bool)
    requires Coherent(t, role) && IsListing(files, FlatOf(t, role), role) && AllTexts(FlatOf(t, role), role)
    requires forall r :: r in files ==> r.content.Text?
    requires FromArchive(req, Imported(Exported(files, metadata))) && Accepted(req.name)
    requires WellFormed(t2) && NormalPath(target) && StatOf(t2, target) == NotExist
    requires CreateOutcome(b, t2, target, req, now, t', ok)
    ensures ok && Coherent(t', target) && IsListing(files, FlatOf(t', target), target) <==>
      NoBackslash(FlatOf(t, role), role)
  {
    hide *;
    var m, data := FlatOf(t, role), Imported(Exported(files, metadata));
    ExportableIff(m, role);
    if NoBackslash(m, role) {
      CoherentFilesAreLeaves(t, role);
      ImportOfExportIff(files, m, role, metadata);
      ArchiveIsStorable(files, m, role, target, data, data.Keys);
      ArchiveIsRequest(b, req, data);
      CreateSucceeds(b, t2, target, req, now, t', ok, data);
      SameListing(files, m, role, target, data, FlatOf(t', target));
    }
    if ok && IsListing(files, FlatOf(t', target), target) {
      ArchiveIsRequest(b, req, data);
      ImportHasNoBackslash(Exported(files, metadata));
      CreateSucceeds(b, t2, target, req, now, t', ok, data);
      StorableAreAccepted(target, data.Keys);
      ListedHasNoBackslash(files, target, data, FlatOf(t', target));
      NamesAreListed(files, m, role);
    }
  }

  lemma StorableAreAccepted(role: Path, names: set<string>)
    requires Storable(role, names)
    ensures forall k :: k in names ==> Accepted(k)
  {}

  lemma {:induction false} CleanIsMadeOfParts(rooted: bool, stack: Path, parts: seq<string>)
    ensures forall x :: x in CleanParts(rooted, stack, parts) ==> x in stack || x in parts || x == ".."
    decreases |parts|
  {
    if parts != [] {
      CleanIsMadeOfParts(rooted, Push(rooted, stack, parts[0]), parts[1..]);
    }
  }

  lemma {:induction false} PartsHaveNoBackslash(s: string)
    requires '\\' !in s
    ensures forall x :: x in Split(s) ==> '\\' !in x
  {
    if s != "" {
      PartsHaveNoBackslash(s[1..]);
    }
  }

  lemma {:induction false} JoinHasNoBackslash(p: Path)
    requires forall x :: x in p ==> '\\' !in x
    ensures '\\' !in Join(p)
    decreases |p|
  {
    if |p| > 1 {
      JoinHasNoBackslash(p[1..]);
    }
  }

  lemma ListedHasNoBackslash(files: seq<RoleFile>, target: Path, data: map<string, string>, m: Flat)
    requires IsListing(files, m, target) && HoldsExactly(m, target, data) && NormalPath(target)
    requires forall k :: k in data ==> '\\' !in k && Accepted(k)
    ensures forall r :: r in files ==> '\\' !in r.name
  {
    hide Accepted, Split, Join, CleanParts, StrictlySorted;
    forall r | r in files
      ensures '\\' !in r.name
    {
      assert IsEntry(m, target, r);
      var p :| p in m && target <= p && r == RoleFile(NameOf(target, p), m[p]);
      var k :| k in data && Full(target, k) == p;
      JoinStaysUnder(target, k);
      assert p[|target|..] == Rel(k);
      PartsHaveNoBackslash(k);
      CleanIsMadeOfParts(false, [], Split(k));
      JoinHasNoBackslash(Rel(k));
    }
  }

  lemma SameListing(files: seq<RoleFile>, m: Flat, role: Path, target: Path, data: map<string, string>, m': Flat)
    requires IsListing(files, m, role) && Exportable(m, role) && NormalPath(target)
    requires Restored(files, data) && HoldsExactly(m', target, data)
    ensures IsListing(files, m', target)
  {
    assert StrictlySorted(Names(files));
    hide Restored, HoldsExactly, Exportable, IsEntry, StrictlySorted;
    forall r
      ensures r in files <==> IsEntry(m', target, r)
    {
      if r in files {
        ListedAgain(files, m, role, target, data, m', r);
      }
      if IsEntry(m', target, r) {
        NothingElse(files, m, role, target, data, m', r);
      }
    }
  }

  lemma NothingElse(
    files: seq<RoleFile>, m: Flat, role: Path, target: Path, data: map<string, string>, m': Flat, r: RoleFile)
    requires IsListing(files, m, role) && Exportable(m, role) && NormalPath(target)
    requires Restored(files, data) && HoldsExactly(m', target, data) && IsEntry(m', target, r)
    ensures r in files
  {
    MetadataUnder(target);
    var p :| p in m' && target <= p && r == RoleFile(NameOf(target, p), m'[p]);
    var k :| k in data && Full(target, k) == p && m'[p] == Text(data[k]);
    assert k != METADATA_FILE;
    var s :| s in files && k == s.name;
    hide HoldsExactly, IsListing, Exportable, NameOf, Full;
    var q := StoredUnder(files, m, role, target, s);
    assert r == s;
  }

  lemma ListedAgain(
    files: seq<RoleFile>, m: Flat, role: Path, target: Path, data: map<string, string>, m': Flat, r: RoleFile)
    requires IsListing(files, m, role) && Exportable(m, role) && NormalPath(target) && r in files
    requires Restored(files, data) && HoldsExactly(m', target, data)
    ensures IsEntry(m', target, r)
  {
    MetadataUnder(target);
    var p := StoredUnder(files, m, role, target, r);
    var full := Full(target, r.name);
    Rerooted(role, target, p, MetaPath(role));
    assert MetaPath(role)[|role|..] == [METADATA_FILE];
    assert MetaPath(role) !in m;
    assert full in m';
    var k :| k in data && Full(target, k) == full && m'[full] == Text(data[k]);
    var s :| s in files && k == s.name;
    hide HoldsExactly, IsListing, Exportable, NameOf, Full;
    var q := StoredUnder(files, m, role, target, s);
    Rerooted(role, target, p, q);
    assert s.name == r.name;
  }
}
