/** Admission of an untrusted enumeration of an artifact filesystem. */
module ArtifactTree {
  import opened Wrappers
  import Sets
  import opened Paths

  const MAX_ENTRIES: nat := 200000
  const MAX_FILE_SIZE: int := 0x4000_0000
  const MAX_NAME_BYTES: int := 0x800_0000
  const MAX_INT64: int := 0x7FFF_FFFF_FFFF_FFFF
  const INVALID_XATTR: int := 0xFFFF_FFFF

  datatype Kind = Regular | Directory | Symlink | BlockDevice | CharacterDevice | Fifo | Socket

  datatype Entry = Entry(path: string, kind: Kind, form: nat, mode: nat, size: int,
                         uidIndex: nat, gidIndex: nat, uid: nat, gid: nat, modTime: nat, xattr: nat,
                         target: string, inode: nat, inodeNumber: nat, links: nat)

  datatype Role = Program | Runtime | BuildTree

  function LogicalLimit(role: Role): int {
    match role
    case Program => 10 * 0x4000_0000
    case Runtime => 2 * 0x4000_0000
    case BuildTree => 10 * 0x4000_0000
  }

  /** Byte length of the mount point the role's paths are placed under. */
  function Mount(role: Role): nat {
    if role.Runtime? then |"/opt/helmr/runtime"| else |"/opt/helmr/program"|
  }

  predicate ValidPath(path: string, role: Role) {
    ValidTreePath(path, Mount(role))
  }

  predicate ValidEntry(e: Entry, role: Role) {
    && e.uidIndex == 0 && e.gidIndex == 0 && e.uid == 0 && e.gid == 0 && e.modTime == 0 && e.xattr == INVALID_XATTR
    && e.inodeNumber != 0 && e.size >= 0
    && (match e.kind
        case Regular =>
          && (e.form == 2 || e.form == 9) && (e.mode == 0x1A4 || e.mode == 0x1ED)
          && e.size <= MAX_FILE_SIZE && e.target == "" && e.links == 1
        case Directory =>
          (e.form == 1 || e.form == 8) && e.mode == 0x1ED && e.target == ""
        case Symlink =>
          e.form == 3 && e.mode == 0x1FF && e.links == 1 && e.size == |e.target| && ValidTreeLink(e.target)
        case _ => false)
    && ValidPath(e.path, role)
  }

  // ------------------------------------------------------------- budgets

  /** Adds the path and link-target bytes of an entry to a running total. */
  function ChargeNameBytes(total: int, e: Entry): (r: Option<int>)
    ensures r.Some? <==> 0 <= total && total + |e.path| + |e.target| <= MAX_NAME_BYTES
    ensures r.Some? ==> r.value == total + |e.path| + |e.target|
  {
    if total < 0 || total > MAX_NAME_BYTES - |e.path| then None
    else
      var charged := total + |e.path|;
      if charged > MAX_NAME_BYTES - |e.target| then None else Some(charged + |e.target|)
  }

  function NameBytes(entries: seq<Entry>): nat {
    if entries == [] then 0
    else NameBytes(entries[..|entries| - 1]) + |entries[|entries| - 1].path| + |entries[|entries| - 1].target|
  }

  function LogicalSize(e: Entry): int {
    if e.kind.Regular? then e.size else 0
  }

  function LogicalBytes(entries: seq<Entry>): int {
    if entries == [] then 0 else LogicalBytes(entries[..|entries| - 1]) + LogicalSize(entries[|entries| - 1])
  }

  lemma {:induction false} TotalsGrow(entries: seq<Entry>, n: nat)
    requires n <= |entries| && forall e :: e in entries ==> e.size >= 0
    ensures NameBytes(entries[..n]) <= NameBytes(entries)
    ensures 0 <= LogicalBytes(entries[..n]) <= LogicalBytes(entries)
    decreases |entries|
  {
    if n == |entries| {
      assert entries[..n] == entries;
      if entries != [] {
        TotalsGrow(entries[..|entries| - 1], |entries| - 1);
        assert entries[..|entries| - 1][..|entries| - 1] == entries[..|entries| - 1];
      }
    } else {
      assert entries[..|entries| - 1][..n] == entries[..n];
      TotalsGrow(entries[..|entries| - 1], n);
    }
  }

  // ---------------------------------------------------------- acceptance

  /** The superblock facts the enumeration is compared with. */
  datatype Superblock = Superblock(inodeCount: nat, rootInode: nat)

  /** What one entry must satisfy by itself. */
  type Check = Entry -> bool

  function EntryCheck(role: Role): Check {
    (e: Entry) => ValidEntry(e, role)
  }

  predicate AllValid(entries: seq<Entry>, valid: Check, inodeCount: nat) {
    forall e :: e in entries ==> valid(e) && e.inodeNumber <= inodeCount
  }

  /** No two entries share a path, an inode reference or an inode number. */
  predicate Distinct(entries: seq<Entry>) {
    forall i, j :: 0 <= i < j < |entries| ==> Apart(entries[i], entries[j])
  }

  predicate Apart(e: Entry, e': Entry) {
    e.path != e'.path && e.inode != e'.inode && e.inodeNumber != e'.inodeNumber
  }

  /** Nothing the verifier must refuse entry by entry is in the list. */
  ghost predicate GoodEntries(entries: seq<Entry>, valid: Check, inodeCount: nat, limit: int) {
    && AllValid(entries, valid, inodeCount)
    && Distinct(entries)
    && NameBytes(entries) <= MAX_NAME_BYTES
    && LogicalBytes(entries) <= limit
  }

  ghost predicate IsDirectory(entries: seq<Entry>, path: string) {
    exists e :: e in entries && e.path == path && e.kind.Directory?
  }

  /** Every entry but the root lies in an enumerated directory. */
  ghost predicate HasParents(entries: seq<Entry>) {
    forall e :: e in entries && e.path != "." ==> IsDirectory(entries, Dir(e.path))
  }

  /** The enumerations the verifier admits. */
  ghost predicate Acceptable(entries: seq<Entry>, fs: Superblock, role: Role) {
    && 0 < |entries| <= MAX_ENTRIES
    && GoodEntries(entries, EntryCheck(role), fs.inodeCount, LogicalLimit(role))
    && (exists e :: e in entries && e.path == "." && e.kind.Directory? && e.inode == fs.rootInode)
    && |entries| == fs.inodeCount
    && HasParents(entries)
  }

  /** The lookup table of an admitted enumeration. */
  ghost predicate IsIndex(index: map<string, Entry>, entries: seq<Entry>) {
    && (forall e :: e in entries ==> e.path in index && index[e.path] == e)
    && (forall p :: p in index ==> index[p] in entries && index[p].path == p)
  }

  datatype Refusal =
    | EntryCount | NameBudget | InvalidEntry | InodeNumberRange | DuplicatePath | SharedInode
    | SharedInodeNumber | LogicalBudget | MissingRoot | RootInode | InodeCount | MissingParent

  /** The entry may follow the ones already seen. */
  ghost predicate Admissible(seen: seq<Entry>, e: Entry, names: int, logical: int, limit: int) {
    && AllApart(seen, e)
    && names + |e.path| + |e.target| <= MAX_NAME_BYTES
    && logical + LogicalSize(e) <= limit
  }

  lemma DistinctExtends(seen: seq<Entry>, e: Entry)
    requires Distinct(seen)
    ensures Distinct(seen + [e]) <==> AllApart(seen, e)
  {
    var all := seen + [e];
    if Distinct(all) {
      forall s | s in seen
        ensures Apart(s, e)
      {
        var j :| 0 <= j < |seen| && seen[j] == s;
        assert all[j] == s && all[|seen|] == e;
      }
    }
  }

  lemma GoodEntriesExtend(seen: seq<Entry>, e: Entry, valid: Check, inodeCount: nat, limit: int)
    requires GoodEntries(seen, valid, inodeCount, limit)
    ensures GoodEntries(seen + [e], valid, inodeCount, limit) <==>
      valid(e) && e.inodeNumber <= inodeCount && Admissible(seen, e, NameBytes(seen), LogicalBytes(seen), limit)
  {
    assert (seen + [e])[..|seen|] == seen;
    DistinctExtends(seen, e);
    assert e in seen + [e];
  }

  lemma GoodEntriesShrink(entries: seq<Entry>, valid: Check, inodeCount: nat, limit: int, n: nat)
    requires n <= |entries| && GoodEntries(entries, valid, inodeCount, limit)
    requires forall e :: valid(e) ==> e.size >= 0
    ensures GoodEntries(entries[..n], valid, inodeCount, limit)
  {
    TotalsGrow(entries, n);
  }

  function Inodes(seen: seq<Entry>): set<nat> {
    set e | e in seen :: e.inode
  }

  function InodeNumbers(seen: seq<Entry>): set<nat> {
    set e | e in seen :: e.inodeNumber
  }

  /** The running state of the inspection. */
  datatype Tables = Tables(byPath: map<string, Entry>, inodes: set<nat>, numbers: set<nat>, logical: int, names: int)

  /** The tables hold exactly the entries seen so far. */
  ghost predicate Describes(t: Tables, seen: seq<Entry>) {
    && IsIndex(t.byPath, seen) && t.inodes == Inodes(seen) && t.numbers == InodeNumbers(seen)
    && |t.inodes| == |seen|
  }

  predicate AllApart(seen: seq<Entry>, e: Entry) {
    forall s :: s in seen ==> Apart(s, e)
  }

  /** The tables decide whether a new entry is apart from all seen ones. */
  lemma TablesDecide(t: Tables, seen: seq<Entry>, e: Entry)
    requires Describes(t, seen)
    ensures AllApart(seen, e) <==> e.path !in t.byPath && e.inode !in t.inodes && e.inodeNumber !in t.numbers
  {
    if AllApart(seen, e) {
      assert e.path in t.byPath ==> !Apart(t.byPath[e.path], e);
    }
  }

  /** The tables and totals after an entry. */
  function Entered(t: Tables, e: Entry): Tables {
    Tables(t.byPath[e.path := e], t.inodes + {e.inode}, t.numbers + {e.inodeNumber},
           t.logical + LogicalSize(e), t.names + |e.path| + |e.target|)
  }

  lemma IndexExtends(byPath: map<string, Entry>, seen: seq<Entry>, e: Entry)
    requires IsIndex(byPath, seen) && e.path !in byPath
    ensures IsIndex(byPath[e.path := e], seen + [e])
  {
    assert forall s :: s in seen + [e] <==> s in seen || s == e;
  }

  lemma TablesExtend(t: Tables, seen: seq<Entry>, e: Entry)
    requires Describes(t, seen) && e.path !in t.byPath && e.inode !in t.inodes
    ensures Describes(Entered(t, e), seen + [e])
  {
    IndexExtends(t.byPath, seen, e);
    NumberSetsExtend(seen, e);
  }

  lemma NumberSetsExtend(seen: seq<Entry>, e: Entry)
    ensures Inodes(seen + [e]) == Inodes(seen) + {e.inode}
    ensures InodeNumbers(seen + [e]) == InodeNumbers(seen) + {e.inodeNumber}
  {
    assert forall s :: s in seen + [e] <==> s in seen || s == e;
  }

  /** Why the tables and totals refuse an entry, if they do. */
  function Refuses(t: Tables, e: Entry, valid: bool, inodeCount: nat, limit: int): Option<Refusal> {
    if ChargeNameBytes(t.names, e).None? then Some(NameBudget)
    else if !valid then Some(InvalidEntry)
    else if e.inodeNumber > inodeCount then Some(InodeNumberRange)
    else if e.path in t.byPath then Some(DuplicatePath)
    else if e.inode in t.inodes then Some(SharedInode)
    else if e.inodeNumber in t.numbers then Some(SharedInodeNumber)
    else if e.kind.Regular? && t.logical > limit - e.size then Some(LogicalBudget)
    else None
  }

  lemma PrefixStep(entries: seq<Entry>, i: nat, valid: Check, inodeCount: nat, limit: int)
    requires i < |entries| && GoodEntries(entries[..i], valid, inodeCount, limit)
    requires forall e :: valid(e) ==> e.size >= 0
    ensures entries[..i + 1] == entries[..i] + [entries[i]]
    ensures NameBytes(entries[..i + 1]) == NameBytes(entries[..i]) + |entries[i].path| + |entries[i].target|
    ensures LogicalBytes(entries[..i + 1]) == LogicalBytes(entries[..i]) + LogicalSize(entries[i])
    ensures
      if valid(entries[i]) && entries[i].inodeNumber <= inodeCount
         && Admissible(entries[..i], entries[i], NameBytes(entries[..i]), LogicalBytes(entries[..i]), limit)
      then GoodEntries(entries[..i + 1], valid, inodeCount, limit)
      else !GoodEntries(entries, valid, inodeCount, limit)
  {
    assert entries[..i + 1][..i] == entries[..i] && entries[..i + 1] == entries[..i] + [entries[i]];
    GoodEntriesExtend(entries[..i], entries[i], valid, inodeCount, limit);
    if GoodEntries(entries, valid, inodeCount, limit) {
      GoodEntriesShrink(entries, valid, inodeCount, limit, i + 1);
    }
  }

  /** The tables refuse an entry exactly when it spoils the enumeration. */
  lemma EntryStep(t: Tables, entries: seq<Entry>, i: nat, valid: Check, inodeCount: nat, limit: int)
    requires i < |entries| && GoodEntries(entries[..i], valid, inodeCount, limit) && Describes(t, entries[..i])
    requires t.names == NameBytes(entries[..i]) && t.logical == LogicalBytes(entries[..i])
    requires forall e :: valid(e) ==> e.size >= 0
    ensures
      if Refuses(t, entries[i], valid(entries[i]), inodeCount, limit).Some?
      then !GoodEntries(entries, valid, inodeCount, limit)
      else
        && GoodEntries(entries[..i + 1], valid, inodeCount, limit)
        && Describes(Entered(t, entries[i]), entries[..i + 1])
        && Entered(t, entries[i]).names == NameBytes(entries[..i + 1])
        && Entered(t, entries[i]).logical == LogicalBytes(entries[..i + 1])
  {
    TablesDecide(t, entries[..i], entries[i]);
    PrefixStep(entries, i, valid, inodeCount, limit);
    if Refuses(t, entries[i], valid(entries[i]), inodeCount, limit).None? {
      TablesExtend(t, entries[..i], entries[i]);
    }
  }

  /** The entry-by-entry part of the inspection. */
  method Enumerate(entries: seq<Entry>, valid: Check, inodeCount: nat, limit: int) returns (r: Result<Tables, Refusal>)
    requires 0 <= limit && forall e :: valid(e) ==> e.size >= 0
    ensures r.Success? <==> GoodEntries(entries, valid, inodeCount, limit)
    ensures r.Success? ==>
      && Describes(r.value, entries)
      && r.value.names == NameBytes(entries) && r.value.logical == LogicalBytes(entries)
  {
    var t := Tables(map[], {}, {}, 0, 0);
    for i := 0 to |entries|
      invariant GoodEntries(entries[..i], valid, inodeCount, limit)
      invariant Describes(t, entries[..i])
      invariant t.names == NameBytes(entries[..i]) && t.logical == LogicalBytes(entries[..i])
    {
      EntryStep(t, entries, i, valid, inodeCount, limit);
      var refusal := Refuses(t, entries[i], valid(entries[i]), inodeCount, limit);
      if refusal.Some? {
        return Failure(refusal.value);
      }
      t := Entered(t, entries[i]);
    }
    assert entries[..|entries|] == entries;
    r := Success(t);
  }

  /** The inspection admits exactly the acceptable enumerations. */
  method Inspect(entries: seq<Entry>, fs: Superblock, role: Role) returns (r: Result<map<string, Entry>, Refusal>)
    ensures r.Success? <==> Acceptable(entries, fs, role)
    ensures r.Success? ==> IsIndex(r.value, entries)
  {
    if |entries| == 0 || |entries| > MAX_ENTRIES {
      return Failure(EntryCount);
    }
    var tables := Enumerate(entries, EntryCheck(role), fs.inodeCount, LogicalLimit(role));
    if tables.Failure? {
      return Failure(tables.error);
    }
    var byPath := tables.value.byPath;
    RootDecides(byPath, entries, fs);
    if "." !in byPath || !byPath["."].kind.Directory? {
      return Failure(MissingRoot);
    }
    if byPath["."].inode != fs.rootInode {
      return Failure(RootInode);
    }
    if |tables.value.inodes| != fs.inodeCount {
      return Failure(InodeCount);
    }
    var parents := ParentsEnumerated(byPath, entries);
    if !parents {
      return Failure(MissingParent);
    }
    r := Success(byPath);
  }

  lemma RootDecides(byPath: map<string, Entry>, entries: seq<Entry>, fs: Superblock)
    requires IsIndex(byPath, entries)
    ensures (exists e :: e in entries && e.path == "." && e.kind.Directory? && e.inode == fs.rootInode) <==>
      "." in byPath && byPath["."].kind.Directory? && byPath["."].inode == fs.rootInode
  {
    if "." in byPath {
      assert byPath["."] in entries;
    }
  }

  lemma IndexFindsDirectories(byPath: map<string, Entry>, entries: seq<Entry>, path: string)
    requires IsIndex(byPath, entries)
    ensures IsDirectory(entries, path) <==> path in byPath && byPath[path].kind.Directory?
  {
    if path in byPath {
      assert byPath[path] in entries;
    }
  }

  method ParentsEnumerated(byPath: map<string, Entry>, entries: seq<Entry>) returns (ok: bool)
    requires IsIndex(byPath, entries)
    ensures ok <==> HasParents(entries)
  {
    for i := 0 to |entries|
      invariant forall j :: 0 <= j < i && entries[j].path != "." ==> IsDirectory(entries, Dir(entries[j].path))
    {
      if entries[i].path != "." {
        var parent := Dir(entries[i].path);
        IndexFindsDirectories(byPath, entries, parent);
        if parent !in byPath || !byPath[parent].kind.Directory? {
          return false;
        }
      }
    }
    ok := true;
  }

  // ---------------------------------------- what acceptance establishes

  lemma {:induction false} DistinctNumbers(entries: seq<Entry>)
    requires Distinct(entries)
    ensures |InodeNumbers(entries)| == |entries|
  {
    if entries != [] {
      var init, last := entries[..|entries| - 1], entries[|entries| - 1];
      DistinctNumbers(init);
      assert entries == init + [last];
      NumberSetsExtend(init, last);
      DistinctExtends(init, last);
    }
  }

  function UpTo(n: nat): set<nat> {
    if n == 0 then {} else UpTo(n - 1) + {n}
  }

  lemma {:induction false} UpToIsRange(n: nat)
    ensures |UpTo(n)| == n
    ensures forall k :: k in UpTo(n) <==> 1 <= k <= n
  {
    if n > 0 {
      UpToIsRange(n - 1);
    }
  }

  /** The inode numbers of an accepted tree are exactly 1 to the superblock
      count, each carried by exactly one entry. */
  lemma InodeNumbersAreExact(entries: seq<Entry>, fs: Superblock, role: Role)
    requires Acceptable(entries, fs, role)
    ensures forall k :: k in InodeNumbers(entries) <==> 1 <= k <= fs.inodeCount
    ensures forall i, j :: 0 <= i < j < |entries| ==> entries[i].inodeNumber != entries[j].inodeNumber
  {
    DistinctNumbers(entries);
    UpToIsRange(fs.inodeCount);
    forall k | k in InodeNumbers(entries)
      ensures k in UpTo(fs.inodeCount)
    {
      var e :| e in entries && e.inodeNumber == k;
      assert EntryCheck(role)(e);
    }
    Sets.SubsetSize(InodeNumbers(entries), UpTo(fs.inodeCount));
    assert forall i, j :: 0 <= i < j < |entries| ==> Apart(entries[i], entries[j]);
  }

  /** After every entry the running totals are the true sums, stay within their
      limits and never leave the signed 64-bit range. */
  lemma RunningTotalsFit(entries: seq<Entry>, fs: Superblock, role: Role, n: nat)
    requires Acceptable(entries, fs, role) && n <= |entries|
    ensures 0 <= NameBytes(entries[..n]) <= MAX_NAME_BYTES <= MAX_INT64
    ensures 0 <= LogicalBytes(entries[..n]) <= LogicalLimit(role) <= MAX_INT64
  {
    forall e | e in entries
      ensures e.size >= 0
    {
      assert EntryCheck(role)(e);
    }
    TotalsGrow(entries, n);
  }

  /** An accepted tree has only files, directories and symbolic links: no device,
      pipe or socket. All are owned by root, without times or extended attributes;
      files and directories have their one or two modes, files and links one name. */
  lemma EntriesAreNormalized(entries: seq<Entry>, fs: Superblock, role: Role, e: Entry)
    requires Acceptable(entries, fs, role) && e in entries
    ensures e.kind in {Regular, Directory, Symlink}
    ensures e.uidIndex == e.gidIndex == e.uid == e.gid == e.modTime == 0 && e.xattr == INVALID_XATTR
    ensures e.mode in (match e.kind case Regular => {0x1A4, 0x1ED} case Directory => {0x1ED} case _ => {0x1FF})
    ensures e.form in (match e.kind case Regular => {2, 9} case Directory => {1, 8} case _ => {3})
    ensures e.kind.Directory? || e.links == 1
    ensures if e.kind.Symlink? then e.size == |e.target| > 0 else e.target == ""
    ensures e.kind.Regular? ==> 0 <= e.size <= MAX_FILE_SIZE
  {
    assert EntryCheck(role)(e);
  }

  function RootEntry(inode: nat, links: nat): Entry {
    Entry(".", Directory, 1, 0x1ED, 0, 0, 0, 0, 0, 0, INVALID_XATTR, "", inode, 1, links)
  }

  /** A tree of one file or one link is accepted exactly when that entry is valid. */
  lemma SmallTreeExactly(e: Entry, role: Role, fs: Superblock, links: nat)
    requires e.inodeNumber == 2 && e.inode != fs.rootInode && Free(e.path, SLASH) && e.path != "."
    requires |e.path| + |e.target| < 8192
    ensures Acceptable([RootEntry(fs.rootInode, links), e], fs, role) <==> fs.inodeCount == 2 && ValidEntry(e, role)
  {
    var root := RootEntry(fs.rootInode, links);
    SmallTotals(root, e);
    SmallTreeHasParents(root, e);
    SmallTreeIsValid(root, e, role);
  }

  lemma SmallTreeIsValid(root: Entry, e: Entry, role: Role)
    requires root.inodeNumber == 1 && ValidEntry(root, role) && e.inodeNumber == 2
    ensures AllValid([root, e], EntryCheck(role), 2) <==> ValidEntry(e, role)
  {
    var entries := [root, e];
    assert entries[0] == root && entries[1] == e;
    assert e in entries ==> (EntryCheck(role)(e) <==> ValidEntry(e, role));
  }

  lemma SmallTreeHasParents(root: Entry, e: Entry)
    requires root.path == "." && root.kind.Directory? && Free(e.path, SLASH)
    ensures HasParents([root, e]) && root in [root, e]
  {
    assert [root, e][0] == root;
    SplitFree(e.path, SLASH);
    assert IsDirectory([root, e], ".");
  }

  lemma SmallTotals(root: Entry, e: Entry)
    requires LogicalSize(root) == 0 && |root.path| == 1 && root.target == ""
    ensures NameBytes([root, e]) == 1 + |e.path| + |e.target|
    ensures LogicalBytes([root, e]) == LogicalSize(e)
  {
    var one, two := [root], [root, e];
    assert one[..0] == [] && NameBytes(one) == 1 && LogicalBytes(one) == 0;
    assert two[..1] == one && two[1] == e;
  }

  predicate Listed(entries: seq<Entry>, path: string) {
    exists e :: e in entries && e.path == path
  }

  /** Every proper prefix of an enumerated path is an enumerated directory. */
  lemma {:induction false} PrefixesAreDirectories(entries: seq<Entry>, parts: seq<string>, n: nat)
    requires HasParents(entries)
    requires 0 < n < |parts| && (forall c :: c in parts ==> Free(c, SLASH))
    requires Listed(entries, Join(parts, SLASH))
    ensures IsDirectory(entries, Join(parts[..n], SLASH))
    decreases |parts|
  {
    var parent := parts[..|parts| - 1];
    ParentOfJoin(parts);
    assert IsDirectory(entries, Join(parent, SLASH));
    if n < |parts| - 1 {
      assert parent[..n] == parts[..n];
      PrefixesAreDirectories(entries, parent, n);
    }
  }

  /** Every link target of an accepted tree splits into clean components. */
  lemma LinksAreClean(entries: seq<Entry>, fs: Superblock, role: Role, e: Entry)
    requires Acceptable(entries, fs, role) && e in entries && e.kind.Symlink?
    ensures AllClean(Split(e.target, SLASH))
  {
    assert EntryCheck(role)(e);
    SplitIsClean(e.target);
  }

  /** Every path of an accepted tree other than the root splits into clean
      components none of which is a dot or a dot-dot. */
  lemma PathsAreClean(entries: seq<Entry>, fs: Superblock, role: Role, e: Entry)
    requires Acceptable(entries, fs, role) && e in entries && e.path != "."
    ensures AllClean(Split(e.path, SLASH))
    ensures forall c :: c in Split(e.path, SLASH) ==> c != "." && c != ".."
  {
    assert EntryCheck(role)(e);
    assert forall c :: c in Split(e.path, SLASH) ==> ValidComponent(c);
    SplitIsClean(e.path);
  }
}
