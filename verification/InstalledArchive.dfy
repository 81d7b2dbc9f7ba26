/** The bounded discovery and ordering of an installed tree.

    A tree maps component paths to nodes; the order in which a directory lists
    its children is a parameter of the walk. */
module InstalledArchive {
  import opened Wrappers
  import opened Paths
  import opened ArtifactTree
  import Glob
  import Text

  type Path = seq<string>

  datatype Node = File(size: int) | Link(target: string) | Folder | Special

  type Files = map<Path, Node>

  /** The names of a directory, in the order the directory returns them. */
  type Listing = Path -> seq<string>

  type Exclusion = string -> bool

  predicate IsFolder(fs: Files, dir: Path) {
    dir == [] || (dir in fs && fs[dir].Folder?)
  }

  /** Every node lies in a folder, under a clean name. */
  ghost predicate WellFormed(fs: Files) {
    forall p :: p in fs ==> p != [] && AllClean(p) && IsFolder(fs, p[..|p| - 1])
  }

  predicate NoRepeats<T(==)>(s: seq<T>) {
    forall i, j :: 0 <= i < j < |s| ==> s[i] != s[j]
  }

  /** The listing of every folder names exactly its children, each once. */
  ghost predicate Lists(fs: Files, list: Listing) {
    forall dir :: IsFolder(fs, dir) ==> NoRepeats(list(dir)) && forall name :: name in list(dir) <==> dir + [name] in fs
  }

  ghost predicate DepthBound(fs: Files, depth: nat) {
    forall p :: p in fs ==> |p| <= depth
  }

  lemma {:induction false} DepthExists(fs: Files) returns (depth: nat)
    ensures DepthBound(fs, depth)
    decreases |fs|
  {
    if fs == map[] {
      depth := 0;
    } else {
      var p :| p in fs;
      var rest := fs - {p};
      assert |rest| < |fs| by {
        assert rest.Keys == fs.Keys - {p};
      }
      depth := DepthExists(rest);
      depth := if depth < |p| then |p| else depth;
    }
  }

  // ------------------------------------------------------ the pruned walk

  /** The visit of the named children of a folder: an excluded child is skipped
      with everything below it, a folder is descended into at once. `levels`
      counts the levels the tree may have below the folder. */
  ghost function Visit(fs: Files, list: Listing, excluded: Exclusion, levels: nat, dir: Path, names: seq<string>): seq<Path>
    decreases levels, |names|
  {
    if names == [] then []
    else VisitOne(fs, list, excluded, levels, dir, names[0]) + Visit(fs, list, excluded, levels, dir, names[1..])
  }

  ghost function VisitOne(fs: Files, list: Listing, excluded: Exclusion, levels: nat, dir: Path, name: string): seq<Path>
    decreases levels, 0
  {
    var p := dir + [name];
    if excluded(Join(p, SLASH)) then []
    else if p in fs && fs[p].Folder? && levels > 0 then [p] + Visit(fs, list, excluded, levels - 1, p, list(p))
    else [p]
  }

  /** No prefix of the path longer than the folder is excluded. */
  ghost predicate VisibleFrom(excluded: Exclusion, n: nat, p: Path) {
    forall k :: n < k <= |p| ==> !excluded(Join(p[..k], SLASH))
  }

  predicate Below(dir: Path, p: Path) {
    |dir| < |p| && p[..|dir|] == dir
  }

  lemma {:induction false} PrefixIsFolder(fs: Files, p: Path, k: nat)
    requires WellFormed(fs) && p in fs && k < |p|
    ensures IsFolder(fs, p[..k])
    decreases |p| - k
  {
    if k < |p| - 1 {
      PrefixIsFolder(fs, p, k + 1);
      assert p[..k + 1][..k] == p[..k];
    }
  }

  /** What a visit of some children of a folder contains. */
  ghost predicate Selected(fs: Files, excluded: Exclusion, dir: Path, names: seq<string>, p: Path) {
    p in fs && Below(dir, p) && p[|dir|] in names && VisibleFrom(excluded, |dir|, p)
  }

  lemma ChildListed(fs: Files, list: Listing, q: Path, p: Path)
    requires WellFormed(fs) && Lists(fs, list) && q in fs && p in fs && Below(q, p)
    ensures fs[q].Folder? && p[|q|] in list(q)
  {
    PrefixIsFolder(fs, p, |q|);
    PrefixInFiles(fs, p, |q| + 1);
    assert p[..|q| + 1] == q + [p[|q|]];
    assert q != [];
  }

  lemma VisibleSplits(excluded: Exclusion, n: nat, p: Path)
    requires n < |p|
    ensures VisibleFrom(excluded, n, p) <==> !excluded(Join(p[..n + 1], SLASH)) && VisibleFrom(excluded, n + 1, p)
  {
  }

  lemma BelowChild(dir: Path, name: string, p: Path)
    ensures Below(dir, p) && p[|dir|] == name <==> p == dir + [name] || Below(dir + [name], p)
    ensures Below(dir, p) && p[|dir|] == name ==> p[..|dir| + 1] == dir + [name]
  {
    var q := dir + [name];
    assert q[..|dir|] == dir && q[..|q|] == q;
    if Below(q, p) {
      assert p[..|dir|] == p[..|q|][..|dir|] && p[|dir|] == p[..|q|][|dir|];
    } else if Below(dir, p) && p[|dir|] == name {
      assert p[..|q|] == q;
      assert |p| == |q|;
      assert p[..|q|] == p;
    }
  }

  /** A path below a child is the child itself or lies below it in a folder. */
  lemma SelectedSplits(fs: Files, list: Listing, excluded: Exclusion, dir: Path, name: string, p: Path)
    requires dir + [name] in fs
    requires p in fs && Below(dir + [name], p) ==> fs[dir + [name]].Folder? && p[|dir| + 1] in list(dir + [name])
    ensures var q := dir + [name];
      Selected(fs, excluded, dir, [name], p) <==>
        !excluded(Join(q, SLASH)) && (p == q || (fs[q].Folder? && Selected(fs, excluded, q, list(q), p)))
  {
    BelowChild(dir, name, p);
    if p in fs && Below(dir, p) && p[|dir|] == name {
      VisibleSplits(excluded, |dir|, p);
    }
  }

  lemma {:induction false} VisitOneIsExact(fs: Files, list: Listing, excluded: Exclusion, levels: nat, dir: Path, name: string)
    requires WellFormed(fs) && Lists(fs, list) && DepthBound(fs, |dir| + levels)
    requires IsFolder(fs, dir) && dir + [name] in fs
    ensures var visited := VisitOne(fs, list, excluded, levels, dir, name);
      && NoRepeats(visited)
      && forall p :: p in visited <==> Selected(fs, excluded, dir, [name], p)
    decreases levels, 0
  {
    var q := dir + [name];
    if !excluded(Join(q, SLASH)) && fs[q].Folder? {
      VisitIsExact(fs, list, excluded, levels - 1, q, list(q));
      assert !Selected(fs, excluded, q, list(q), q);
      AppendNoRepeats([q], Visit(fs, list, excluded, levels - 1, q, list(q)));
    }
    forall p
      ensures p in VisitOne(fs, list, excluded, levels, dir, name) <==> Selected(fs, excluded, dir, [name], p)
    {
      if p in fs && Below(q, p) {
        ChildListed(fs, list, q, p);
      }
      SelectedSplits(fs, list, excluded, dir, name, p);
    }
  }

  lemma PrefixInFiles(fs: Files, p: Path, k: nat)
    requires WellFormed(fs) && p in fs && 0 < k <= |p|
    ensures p[..k] in fs
  {
    if k == |p| {
      assert p[..k] == p;
    } else {
      PrefixIsFolder(fs, p, k);
    }
  }

  /** A visit contains exactly the selected paths, each once. */
  lemma {:induction false} VisitIsExact(fs: Files, list: Listing, excluded: Exclusion, levels: nat, dir: Path, names: seq<string>)
    requires WellFormed(fs) && Lists(fs, list) && DepthBound(fs, |dir| + levels)
    requires IsFolder(fs, dir) && NoRepeats(names) && forall name :: name in names ==> dir + [name] in fs
    ensures var visited := Visit(fs, list, excluded, levels, dir, names);
      && NoRepeats(visited)
      && forall p :: p in visited <==> Selected(fs, excluded, dir, names, p)
    decreases levels, |names|
  {
    if names != [] {
      assert names[0] in names;
      VisitOneIsExact(fs, list, excluded, levels, dir, names[0]);
      VisitIsExact(fs, list, excluded, levels, dir, names[1..]);
      var first := VisitOne(fs, list, excluded, levels, dir, names[0]);
      var rest := Visit(fs, list, excluded, levels, dir, names[1..]);
      assert forall p :: p in first ==> p[|dir|] == names[0];
      assert forall p :: p in rest ==> p[|dir|] in names[1..];
      AppendNoRepeats(first, rest);
    }
  }

  lemma AppendNoRepeats<T>(a: seq<T>, b: seq<T>)
    requires NoRepeats(a) && NoRepeats(b) && forall x :: x in a ==> x !in b
    ensures NoRepeats(a + b)
  {
    var c := a + b;
    forall i, j | 0 <= i < j < |c|
      ensures c[i] != c[j]
    {
      if i < |a| <= j {
        assert c[i] in a && c[j] in b;
      }
    }
  }

  // ------------------------------------------------------------ budgets

  /** A limit that is not positive is no limit. */
  datatype Limits = Limits(entries: int, bytes: int, nameBytes: int, fileBytes: int)

  datatype Stats = Stats(entries: nat, bytes: int, names: int)

  /** The encoder supplies the root; its one-byte name is reserved. */
  const START: Stats := Stats(0, 0, 1)

  function Target(node: Node): string {
    if node.Link? then node.target else ""
  }

  function NameCharge(p: Path, node: Node): nat {
    |Join(p, SLASH)| + |Target(node)|
  }

  function SizeOf(node: Node): int {
    if node.File? then node.size else 0
  }

  /** What a path and its node must satisfy by themselves: admitted text at the
      three mount points and on the host, an admitted link target, and a file
      size in range. */
  predicate Representable(hostPrefix: nat, limits: Limits, p: Path, node: Node) {
    var rel := Join(p, SLASH);
    && ValidTreePath(rel, |"/workspace/project"|) && ValidTreePath(rel, |"/workspace/program"|) && ValidTreePath(rel, |"/opt/helmr/program"|)
    && hostPrefix + 1 + |rel| + 1 <= TREE_PATH_BYTES
    && (node.Link? ==> ValidTreeLink(node.target))
    && (node.File? ==> 0 <= node.size && (limits.fileBytes > 0 ==> node.size <= limits.fileBytes))
  }

  /** The entry of a path and its node, normalized. */
  function Emitted(p: Path, node: Node, executable: bool, inode: nat, inodeNumber: nat, links: nat): Entry
    requires !node.Special?
  {
    var rel := Join(p, SLASH);
    match node
    case File(size) =>
      Entry(rel, Regular, 2, if executable then 0x1ED else 0x1A4, size, 0, 0, 0, 0, 0, INVALID_XATTR, "", inode, inodeNumber, 1)
    case Link(target) => Entry(rel, Symlink, 3, 0x1FF, |target|, 0, 0, 0, 0, 0, INVALID_XATTR, target, inode, inodeNumber, 1)
    case Folder => Entry(rel, Directory, 1, 0x1ED, 0, 0, 0, 0, 0, 0, INVALID_XATTR, "", inode, inodeNumber, links)
  }

  /** With the verifier's file limit, the producer takes a path exactly when the
      verifier admits the entry it makes of it and the path fits on the host. */
  lemma RepresentableMeansValid(hostPrefix: nat, limits: Limits, p: Path, node: Node, executable: bool, inode: nat,
                                inodeNumber: nat, links: nat)
    requires !node.Special? && inodeNumber != 0 && Join(p, SLASH) != "." && limits.fileBytes == MAX_FILE_SIZE
    ensures Representable(hostPrefix, limits, p, node) <==>
      && ValidEntry(Emitted(p, node, executable, inode, inodeNumber, links), Program)
      && hostPrefix + |Join(p, SLASH)| + 2 <= 4096
  {
  }

  /** The running total of regular-file bytes after one more file. */
  function AppendSize(bytes: int, size: int, maxBytes: int): Option<int> {
    if size < 0 then None
    else if maxBytes <= 0 then Some(bytes + size)
    else if size > maxBytes || bytes > maxBytes - size then None
    else Some(bytes + size)
  }

  /** One entry charged against the budgets, in the order of the checks. */
  function Charge(stats: Stats, limits: Limits, representable: bool, charge: nat, node: Node): Option<Stats> {
    if limits.entries > 0 && stats.entries >= limits.entries then None
    else if !representable then None
    else if limits.nameBytes > 0 && charge > limits.nameBytes - stats.names then None
    else
      var bytes := if node.File? then AppendSize(stats.bytes, node.size, limits.bytes) else Some(stats.bytes);
      if bytes.None? then None else Some(Stats(stats.entries + 1, bytes.value, stats.names + charge))
  }

  /** The part of the tree that a walk charges. */
  datatype Budget = Budget(fs: Files, valid: Path -> bool, limits: Limits)

  function InstalledBudget(fs: Files, hostPrefix: nat, limits: Limits): Budget {
    Budget(fs, (p: Path) => p in fs && Representable(hostPrefix, limits, p, fs[p]), limits)
  }

  /** A valid path has a natural size. */
  ghost predicate Sized(b: Budget) {
    forall p :: b.valid(p) && p in b.fs ==> 0 <= SizeOf(b.fs[p])
  }

  lemma InstalledBudgetIsSized(fs: Files, hostPrefix: nat, limits: Limits)
    ensures Sized(InstalledBudget(fs, hostPrefix, limits))
  {
  }

  function ChargePath(b: Budget, stats: Stats, p: Path): Option<Stats> {
    if p !in b.fs then None else Charge(stats, b.limits, b.valid(p), NameCharge(p, b.fs[p]), b.fs[p])
  }

  ghost function ChargeAll(b: Budget, stats: Stats, paths: seq<Path>): Option<Stats>
    decreases |paths|
  {
    if paths == [] then Some(stats)
    else
      match ChargePath(b, stats, paths[0])
      case None => None
      case Some(next) => ChargeAll(b, next, paths[1..])
  }

  function Sum(weight: Path -> int, paths: seq<Path>): int {
    if paths == [] then 0 else weight(paths[0]) + Sum(weight, paths[1..])
  }

  function NameWeight(fs: Files): Path -> int {
    (p: Path) => if p in fs then NameCharge(p, fs[p]) else 0
  }

  function SizeWeight(fs: Files): Path -> int {
    (p: Path) => if p in fs then SizeOf(fs[p]) else 0
  }

  function Names(b: Budget, paths: seq<Path>): int {
    Sum(NameWeight(b.fs), paths)
  }

  function Bytes(b: Budget, paths: seq<Path>): int {
    Sum(SizeWeight(b.fs), paths)
  }

  lemma {:induction false} SumIsNatural(weight: Path -> int, paths: seq<Path>)
    requires forall p :: p in paths ==> weight(p) >= 0
    ensures Sum(weight, paths) >= 0
  {
    if paths != [] {
      assert paths[0] in paths;
      SumIsNatural(weight, paths[1..]);
    }
  }

  ghost predicate AllValid(b: Budget, paths: seq<Path>) {
    forall p :: p in paths ==> p in b.fs && b.valid(p)
  }

  /** The totals fit, whatever the order. */
  ghost predicate Fits(b: Budget, stats: Stats, paths: seq<Path>) {
    paths != [] ==>
      && AllValid(b, paths)
      && (b.limits.entries > 0 ==> stats.entries + |paths| <= b.limits.entries)
      && (b.limits.nameBytes > 0 ==> stats.names + Names(b, paths) <= b.limits.nameBytes)
      && (b.limits.bytes > 0 ==> stats.bytes + Bytes(b, paths) <= b.limits.bytes)
  }

  ghost predicate WithinBytes(b: Budget, stats: Stats) {
    0 <= stats.bytes && (b.limits.bytes > 0 ==> stats.bytes <= b.limits.bytes)
  }

  /** One charge succeeds exactly when the entry fits by itself. */
  lemma ChargePathFits(b: Budget, stats: Stats, p: Path)
    requires p in b.fs && Sized(b) && WithinBytes(b, stats)
    ensures ChargePath(b, stats, p) ==
      if && b.valid(p)
         && (b.limits.entries > 0 ==> stats.entries + 1 <= b.limits.entries)
         && (b.limits.nameBytes > 0 ==> stats.names + NameCharge(p, b.fs[p]) <= b.limits.nameBytes)
         && (b.limits.bytes > 0 ==> stats.bytes + SizeOf(b.fs[p]) <= b.limits.bytes)
      then Some(Stats(stats.entries + 1, stats.bytes + SizeOf(b.fs[p]), stats.names + NameCharge(p, b.fs[p])))
      else None
  {
  }

  /** Charging entry by entry succeeds exactly when the totals fit, and then
      yields the totals. */
  lemma {:induction false} ChargeAllIsFits(b: Budget, stats: Stats, paths: seq<Path>)
    requires Sized(b) && WithinBytes(b, stats)
    ensures ChargeAll(b, stats, paths) ==
      if Fits(b, stats, paths)
      then Some(Stats(stats.entries + |paths|, stats.bytes + Bytes(b, paths), stats.names + Names(b, paths)))
      else None
    decreases |paths|
  {
    if paths != [] {
      var p, rest := paths[0], paths[1..];
      assert p in paths && forall q :: q in paths <==> q == p || q in rest;
      if p in b.fs {
        ChargePathFits(b, stats, p);
      }
      SumIsNatural(NameWeight(b.fs), rest);
      if AllValid(b, rest) {
        SumIsNatural(SizeWeight(b.fs), rest);
      }
      if ChargePath(b, stats, p).Some? {
        ChargeAllIsFits(b, ChargePath(b, stats, p).value, rest);
      }
    }
  }

  // -------------------------------------------------- order independence

  ghost predicate SameElements<T(!new)>(a: seq<T>, b: seq<T>) {
    forall x :: x in a <==> x in b
  }

  lemma {:induction false} SumWithout(weight: Path -> int, paths: seq<Path>, i: nat)
    requires i < |paths|
    ensures Sum(weight, paths) == weight(paths[i]) + Sum(weight, paths[..i] + paths[i + 1..])
  {
    var without := paths[..i] + paths[i + 1..];
    if i > 0 {
      SumWithout(weight, paths[1..], i - 1);
      assert without[1..] == paths[1..][..i - 1] + paths[1..][i..];
    } else {
      assert without == paths[1..];
    }
  }

  lemma {:induction false} SumPermutes(weight: Path -> int, a: seq<Path>, b: seq<Path>)
    requires NoRepeats(a) && NoRepeats(b) && SameElements(a, b)
    ensures |a| == |b| && Sum(weight, a) == Sum(weight, b)
    decreases |a|
  {
    assert b != [] ==> b[0] in b;
    if a != [] {
      assert a[0] in a;
      var i :| 0 <= i < |b| && b[i] == a[0];
      var rest := b[..i] + b[i + 1..];
      WithoutElement(a, b, i);
      SumWithout(weight, b, i);
      SumPermutes(weight, a[1..], rest);
    }
  }

  lemma WithoutElement(a: seq<Path>, b: seq<Path>, i: nat)
    requires NoRepeats(a) && NoRepeats(b) && SameElements(a, b) && a != [] && i < |b| && b[i] == a[0]
    ensures NoRepeats(a[1..]) && NoRepeats(b[..i] + b[i + 1..]) && SameElements(a[1..], b[..i] + b[i + 1..])
  {
    var rest := b[..i] + b[i + 1..];
    forall x
      ensures x in a[1..] <==> x in rest
    {
      if x in a[1..] {
        assert x in a && x != a[0];
        var j :| 0 <= j < |b| && b[j] == x;
        assert rest[if j < i then j else j - 1] == x;
      }
      if x in rest {
        var j :| 0 <= j < |rest| && rest[j] == x;
        assert x == b[if j < i then j else j + 1];
        assert x in a && x != a[0];
      }
    }
  }

  /** Whatever order the listings return, the budgets give the same verdict and
      the same totals, over exactly the paths no prefix of which is excluded. */
  lemma ListingOrderIsIrrelevant(b: Budget, excluded: Exclusion, depth: nat, list: Listing, list': Listing)
    requires WellFormed(b.fs) && DepthBound(b.fs, depth) && Lists(b.fs, list) && Lists(b.fs, list') && Sized(b)
    ensures var visit := Visit(b.fs, list, excluded, depth, [], list([]));
      var visit' := Visit(b.fs, list', excluded, depth, [], list'([]));
      && ChargeAll(b, START, visit) == ChargeAll(b, START, visit')
      && SameElements(visit, visit')
      && forall p :: p in visit <==> p in b.fs && VisibleFrom(excluded, 0, p)
  {
    RootVisitIsExact(b.fs, list, excluded, depth);
    RootVisitIsExact(b.fs, list', excluded, depth);
    SameVerdict(b, Visit(b.fs, list, excluded, depth, [], list([])), Visit(b.fs, list', excluded, depth, [], list'([])));
  }

  lemma SameVerdict(b: Budget, visit: seq<Path>, visit': seq<Path>)
    requires Sized(b)
    requires NoRepeats(visit) && NoRepeats(visit') && SameElements(visit, visit')
    ensures ChargeAll(b, START, visit) == ChargeAll(b, START, visit')
  {
    SumPermutes(NameWeight(b.fs), visit, visit');
    SumPermutes(SizeWeight(b.fs), visit, visit');
    ChargeAllIsFits(b, START, visit);
    ChargeAllIsFits(b, START, visit');
    assert AllValid(b, visit) == AllValid(b, visit');
  }

  lemma RootVisitIsExact(fs: Files, list: Listing, excluded: Exclusion, depth: nat)
    requires WellFormed(fs) && DepthBound(fs, depth) && Lists(fs, list)
    ensures var visit := Visit(fs, list, excluded, depth, [], list([]));
      NoRepeats(visit) && forall p :: p in visit <==> p in fs && VisibleFrom(excluded, 0, p)
  {
    VisitIsExact(fs, list, excluded, depth, [], list([]));
    forall p | p in fs
      ensures Below([], p) && p[0] in list([])
    {
      PrefixInFiles(fs, p, 1);
      assert p[..0] == [] && p[..1] == [] + [p[0]];
    }
  }

  // --------------------------------------------------------- the order

  predicate Earlier(a: string, b: string)
    decreases |a|
  {
    b != "" && (a == "" || a[0] < b[0] || (a[0] == b[0] && Earlier(a[1..], b[1..])))
  }

  lemma {:induction false} EarlierIsTotal(a: string, b: string)
    ensures a == b || Earlier(a, b) || Earlier(b, a)
    ensures !(Earlier(a, b) && Earlier(b, a)) && !Earlier(a, a)
    decreases |a|
  {
    if a != "" {
      EarlierIsTotal(a[1..], a[1..]);
      if b != "" {
        EarlierIsTotal(a[1..], b[1..]);
        assert a == [a[0]] + a[1..] && b == [b[0]] + b[1..];
      }
    }
  }

  lemma {:induction false} EarlierIsTransitive(a: string, b: string, c: string)
    requires Earlier(a, b) && Earlier(b, c)
    ensures Earlier(a, c)
    decreases |a|
  {
    if a != "" && a[0] == b[0] && b[0] == c[0] {
      EarlierIsTransitive(a[1..], b[1..], c[1..]);
    }
  }

  /** The emission key: a folder sorts as its name followed by a slash. */
  function SortKey(fs: Files, p: Path): string {
    Join(p, SLASH) + (if p in fs && fs[p].Folder? then [SLASH] else "")
  }

  ghost predicate Sorted(fs: Files, paths: seq<Path>) {
    forall i, j :: 0 <= i < j < |paths| ==> Earlier(SortKey(fs, paths[i]), SortKey(fs, paths[j]))
  }

  lemma KeySplits(fs: Files, p: Path)
    requires WellFormed(fs) && p in fs
    ensures Split(SortKey(fs, p), SLASH) == if fs[p].Folder? then p + [""] else p
  {
    SplitJoin(p, SLASH);
    assert Join(p, SLASH) + "" == Join(p, SLASH);
    if fs[p].Folder? {
      var parts := p + [""];
      assert Join(parts, SLASH) == Join(p, SLASH) + [SLASH] by {
        JoinTrailing(p);
      }
      SplitJoin(parts, SLASH);
    }
  }

  lemma {:induction false} JoinTrailing(p: Path)
    requires p != []
    ensures Join(p + [""], SLASH) == Join(p, SLASH) + [SLASH]
  {
    if |p| > 1 {
      JoinTrailing(p[1..]);
      assert (p + [""])[1..] == p[1..] + [""];
    } else {
      assert (p + [""])[1..] == [""];
      assert Join([""], SLASH) == "";
    }
  }

  /** Distinct paths have distinct keys, so the order leaves nothing open. */
  lemma KeysAreDistinct(fs: Files, p: Path, q: Path)
    requires WellFormed(fs) && p in fs && q in fs && SortKey(fs, p) == SortKey(fs, q)
    ensures p == q
  {
    KeySplits(fs, p);
    KeySplits(fs, q);
    var a, b := if fs[p].Folder? then p + [""] else p, if fs[q].Folder? then q + [""] else q;
    assert a == b;
    assert p[|p| - 1] in p && q[|q| - 1] in q;
    assert a[|a| - 1] == b[|b| - 1];
    assert (p + [""])[..|p|] == p && (q + [""])[..|q|] == q;
  }

  lemma {:induction false} JoinAppends(p: Path, rest: Path)
    requires p != [] && rest != []
    ensures Join(p + rest, SLASH) == Join(p, SLASH) + [SLASH] + Join(rest, SLASH)
  {
    if |p| > 1 {
      JoinAppends(p[1..], rest);
      assert (p + rest)[1..] == p[1..] + rest;
    } else {
      assert (p + rest)[1..] == rest;
    }
  }

  lemma {:induction false} SplitAppends(p: Path, rest: string)
    requires p != [] && AllClean(p)
    ensures Split(Join(p, SLASH) + [SLASH] + rest, SLASH) == p + Split(rest, SLASH)
  {
    assert p[0] in p;
    if |p| == 1 {
      SplitAfterFree(p[0], SLASH, rest);
    } else {
      assert forall c :: c in p[1..] ==> c in p;
      SplitAppends(p[1..], rest);
      SplitAfterFree(p[0], SLASH, Join(p[1..], SLASH) + [SLASH] + rest);
      assert Join(p, SLASH) + [SLASH] + rest == p[0] + [SLASH] + (Join(p[1..], SLASH) + [SLASH] + rest);
    }
  }

  /** Among the keys, those of what lies below a folder are the ones that extend
      the folder's key. */
  lemma BelowMeansExtends(fs: Files, p: Path, q: Path)
    requires WellFormed(fs) && p in fs && fs[p].Folder? && q in fs && p != q
    ensures Below(p, q) <==> SortKey(fs, p) <= SortKey(fs, q)
  {
    var a, b := SortKey(fs, p), SortKey(fs, q);
    if Below(p, q) {
      JoinAppends(p, q[|p|..]);
      assert q == p + q[|p|..];
    }
    if a <= b {
      var rest := b[|a|..];
      assert b == Join(p, SLASH) + [SLASH] + rest;
      SplitAppends(p, rest);
      KeySplits(fs, q);
      ExtensionIsBelow(p, q, Split(rest, SLASH), if fs[q].Folder? then q + [""] else q);
    }
  }

  lemma ExtensionIsBelow(p: Path, q: Path, rest: Path, parts: Path)
    requires parts == p + rest && rest != [] && (parts == q || parts == q + [""]) && p != q
    ensures Below(p, q)
  {
    assert parts[..|p|] == p;
    assert parts == q + [""] ==> parts[..|q|] == q;
    assert q[..|p|] == parts[..|p|];
  }

  lemma {:induction false} BetweenExtensions(a: string, b: string, c: string)
    requires a <= c && Earlier(a, b) && Earlier(b, c)
    ensures a <= b
    decreases |a|
  {
    if a != "" {
      assert a[0] == c[0];
      BetweenExtensions(a[1..], b[1..], c[1..]);
      assert a == [a[0]] + a[1..] && b == [b[0]] + b[1..];
    }
  }

  /** In the emitted order a folder comes before all that lies below it, and
      nothing else comes in between. */
  lemma FoldersPrecedeTheirContents(fs: Files, paths: seq<Path>, i: nat, k: nat)
    requires WellFormed(fs) && Sorted(fs, paths) && (forall p :: p in paths ==> p in fs)
    requires i < |paths| && k < |paths| && fs[paths[i]].Folder? && Below(paths[i], paths[k])
    ensures i < k && forall j :: i < j <= k ==> Below(paths[i], paths[j])
  {
    var a, c := SortKey(fs, paths[i]), SortKey(fs, paths[k]);
    BelowMeansExtends(fs, paths[i], paths[k]);
    EarlierIsTotal(a, c);
    ExtensionIsLater(a, c);
    forall j | i < j < k
      ensures Below(paths[i], paths[j])
    {
      var b := SortKey(fs, paths[j]);
      BetweenExtensions(a, b, c);
      EarlierIsTotal(a, a);
      BelowMeansExtends(fs, paths[i], paths[j]);
    }
  }

  lemma {:induction false} ExtensionIsLater(a: string, c: string)
    requires a <= c
    ensures !Earlier(c, a)
    decreases |a|
  {
    if a != "" {
      ExtensionIsLater(a[1..], c[1..]);
    }
  }

  /** Two sorted lists of the same paths are the same list. */
  lemma {:induction false} SortedIsUnique(fs: Files, a: seq<Path>, b: seq<Path>)
    requires Sorted(fs, a) && Sorted(fs, b) && SameElements(a, b)
    ensures a == b
    decreases |a|
  {
    assert a != [] ==> a[0] in a;
    assert b != [] ==> b[0] in b;
    if a != [] {
      var i :| 0 <= i < |b| && b[i] == a[0];
      var j :| 0 <= j < |a| && a[j] == b[0];
      EarlierIsTotal(SortKey(fs, a[0]), SortKey(fs, b[0]));
      assert a[0] == b[0];
      forall x
        ensures x in a[1..] <==> x in b[1..]
      {
        EarlierIsTotal(SortKey(fs, a[0]), SortKey(fs, a[0]));
        assert x in a[1..] ==> x in a && x != a[0];
        assert x in b[1..] ==> x in b && x != b[0];
      }
      SortedIsUnique(fs, a[1..], b[1..]);
    }
  }

  /** Everything from the first path that is not earlier comes after the new one. */
  lemma FollowsNew(fs: Files, sorted: seq<Path>, p: Path, k: nat, i: nat)
    requires WellFormed(fs) && Sorted(fs, sorted) && p in fs && p !in sorted
    requires k <= i < |sorted| && sorted[k] in fs && !Earlier(SortKey(fs, sorted[k]), SortKey(fs, p))
    ensures Earlier(SortKey(fs, p), SortKey(fs, sorted[i]))
  {
    EarlierIsTotal(SortKey(fs, p), SortKey(fs, sorted[k]));
    if SortKey(fs, p) == SortKey(fs, sorted[k]) {
      KeysAreDistinct(fs, p, sorted[k]);
    }
    if k < i {
      EarlierIsTransitive(SortKey(fs, p), SortKey(fs, sorted[k]), SortKey(fs, sorted[i]));
    }
  }

  lemma SortedAround(fs: Files, sorted: seq<Path>, p: Path, k: nat)
    requires Sorted(fs, sorted) && k <= |sorted|
    requires forall i :: 0 <= i < k ==> Earlier(SortKey(fs, sorted[i]), SortKey(fs, p))
    requires forall i :: k <= i < |sorted| ==> Earlier(SortKey(fs, p), SortKey(fs, sorted[i]))
    ensures Sorted(fs, sorted[..k] + [p] + sorted[k..])
    ensures forall q :: q in sorted[..k] + [p] + sorted[k..] <==> q in sorted || q == p
  {
    var r := sorted[..k] + [p] + sorted[k..];
    forall i, j | 0 <= i < j < |r|
      ensures Earlier(SortKey(fs, r[i]), SortKey(fs, r[j]))
    {
      assert r[i] == if i < k then sorted[i] else if i == k then p else sorted[i - 1];
      assert r[j] == if j < k then sorted[j] else if j == k then p else sorted[j - 1];
    }
    assert sorted == sorted[..k] + sorted[k..];
  }

  /** Insertion of one path into a sorted list. */
  method Insert(fs: Files, sorted: seq<Path>, p: Path) returns (r: seq<Path>)
    requires WellFormed(fs) && Sorted(fs, sorted) && p in fs && p !in sorted && forall q :: q in sorted ==> q in fs
    ensures Sorted(fs, r) && forall q :: q in r <==> q in sorted || q == p
  {
    var k := 0;
    while k < |sorted| && Earlier(SortKey(fs, sorted[k]), SortKey(fs, p))
      invariant 0 <= k <= |sorted|
      invariant forall i :: 0 <= i < k ==> Earlier(SortKey(fs, sorted[i]), SortKey(fs, p))
    {
      k := k + 1;
    }
    forall i | k <= i < |sorted|
      ensures Earlier(SortKey(fs, p), SortKey(fs, sorted[i]))
    {
      FollowsNew(fs, sorted, p, k, i);
    }
    SortedAround(fs, sorted, p, k);
    r := sorted[..k] + [p] + sorted[k..];
  }

  method SortEntries(fs: Files, paths: seq<Path>) returns (sorted: seq<Path>)
    requires WellFormed(fs) && NoRepeats(paths) && forall p :: p in paths ==> p in fs
    ensures Sorted(fs, sorted) && SameElements(sorted, paths)
  {
    sorted := [];
    for i := 0 to |paths|
      invariant Sorted(fs, sorted) && forall q :: q in sorted <==> q in paths[..i]
    {
      assert paths[i] !in paths[..i];
      sorted := Insert(fs, sorted, paths[i]);
      assert paths[..i + 1] == paths[..i] + [paths[i]];
    }
    assert paths[..|paths|] == paths;
  }

  // ------------------------------------------------------ the collector

  lemma {:induction false} ChargeAllAppends(b: Budget, stats: Stats, first: seq<Path>, more: seq<Path>)
    ensures ChargeAll(b, stats, first + more) ==
      match ChargeAll(b, stats, first)
      case None => None
      case Some(next) => ChargeAll(b, next, more)
    decreases |first|
  {
    if first == [] {
      assert first + more == more;
    } else {
      assert (first + more)[1..] == first[1..] + more;
      if ChargePath(b, stats, first[0]).Some? {
        ChargeAllAppends(b, ChargePath(b, stats, first[0]).value, first[1..], more);
      }
    }
  }

  lemma {:induction false} VisitAppends(fs: Files, list: Listing, excluded: Exclusion, levels: nat, dir: Path, first: seq<string>, more: seq<string>)
    ensures Visit(fs, list, excluded, levels, dir, first + more) ==
      Visit(fs, list, excluded, levels, dir, first) + Visit(fs, list, excluded, levels, dir, more)
    decreases |first|
  {
    if first == [] {
      assert first + more == more;
    } else {
      assert (first + more)[1..] == first[1..] + more;
      VisitAppends(fs, list, excluded, levels, dir, first[1..], more);
    }
  }

  /** From `stats` and `entries`, the paths were charged and recorded if all of
      them fit. */
  ghost predicate Took(b: Budget, stats: Stats, entries: seq<Path>, paths: seq<Path>, ok: bool, stats': Stats, entries': seq<Path>) {
    var charged := ChargeAll(b, stats, paths);
    && ok == charged.Some?
    && (ok ==> stats' == charged.value && entries' == entries + paths)
  }

  lemma TookThen(b: Budget, stats: Stats, entries: seq<Path>, first: seq<Path>, stats': Stats, entries': seq<Path>,
                 more: seq<Path>, ok: bool, stats'': Stats, entries'': seq<Path>)
    requires Took(b, stats, entries, first, true, stats', entries')
    requires Took(b, stats', entries', more, ok, stats'', entries'')
    ensures Took(b, stats, entries, first + more, ok, stats'', entries'')
  {
    ChargeAllAppends(b, stats, first, more);
    assert entries + first + more == entries + (first + more);
  }

  /** A charge that does not fit is not undone by what comes after it. */
  lemma TookStops(b: Budget, stats: Stats, entries: seq<Path>, first: seq<Path>, more: seq<Path>, stats': Stats, entries': seq<Path>)
    requires Took(b, stats, entries, first, false, stats', entries')
    ensures Took(b, stats, entries, first + more, false, stats', entries')
  {
    ChargeAllAppends(b, stats, first, more);
  }

  lemma TookNothing(b: Budget, stats: Stats, entries: seq<Path>)
    ensures Took(b, stats, entries, [], true, stats, entries)
  {
  }

  lemma TookOne(b: Budget, stats: Stats, entries: seq<Path>, p: Path)
    ensures var charged := ChargePath(b, stats, p);
            Took(b, stats, entries, [p], charged.Some?, if charged.Some? then charged.value else stats, entries + [p])
  {
    assert [p][1..] == [];
  }

  lemma VisitedSteps(fs: Files, list: Listing, excluded: Exclusion, levels: nat, dir: Path, names: seq<string>, i: nat)
    requires i < |names|
    ensures Visit(fs, list, excluded, levels, dir, names[..i + 1])
         == Visit(fs, list, excluded, levels, dir, names[..i]) + VisitOne(fs, list, excluded, levels, dir, names[i])
    ensures Visit(fs, list, excluded, levels, dir, names)
         == Visit(fs, list, excluded, levels, dir, names[..i + 1]) + Visit(fs, list, excluded, levels, dir, names[i + 1..])
  {
    var one := VisitOne(fs, list, excluded, levels, dir, names[i]);
    VisitAppends(fs, list, excluded, levels, dir, names[..i], [names[i]]);
    VisitAppends(fs, list, excluded, levels, dir, names[..i + 1], names[i + 1..]);
    assert names == names[..i + 1] + names[i + 1..] && names[..i + 1] == names[..i] + [names[i]];
    assert [names[i]][1..] == [];
    assert Visit(fs, list, excluded, levels, dir, [names[i]]) == one + [];
  }

  class Collector {
    const b: Budget
    const list: Listing
    const excluded: Exclusion
    var entries: seq<Path>
    var stats: Stats

    ghost function Visited(levels: nat, dir: Path, names: seq<string>): seq<Path> {
      Visit(b.fs, list, excluded, levels, dir, names)
    }

    constructor (b: Budget, list: Listing, excluded: Exclusion)
      ensures this.b == b && this.list == list && this.excluded == excluded
      ensures entries == [] && stats == START
    {
      this.b, this.list, this.excluded := b, list, excluded;
      entries, stats := [], START;
    }

    /** Appends the visible paths of a folder and charges each, stopping at the
        first that does not fit. */
    method Collect(dir: Path, ghost levels: nat) returns (ok: bool)
      requires DepthBound(b.fs, |dir| + levels)
      modifies this
      ensures Took(b, old(stats), old(entries), Visited(levels, dir, list(dir)), ok, stats, entries)
      decreases levels, 1
    {
      var names := list(dir);
      ok := true;
      var i := 0;
      TookNothing(b, stats, entries);
      while i < |names|
        invariant 0 <= i <= |names| && ok
        invariant Took(b, old(stats), old(entries), Visited(levels, dir, names[..i]), true, stats, entries)
      {
        ghost var stats', entries' := stats, entries;
        ok := Child(dir, names[i], levels);
        VisitedSteps(b.fs, list, excluded, levels, dir, names, i);
        TookThen(b, old(stats), old(entries), Visited(levels, dir, names[..i]), stats', entries',
                 VisitOne(b.fs, list, excluded, levels, dir, names[i]), ok, stats, entries);
        if !ok {
          TookStops(b, old(stats), old(entries), Visited(levels, dir, names[..i + 1]), Visited(levels, dir, names[i + 1..]), stats, entries);
          return;
        }
        i := i + 1;
      }
      assert names[..i] == names;
    }

    /** One child: skipped when excluded, otherwise charged, recorded and, when a
        folder, collected. */
    method Child(dir: Path, name: string, ghost levels: nat) returns (ok: bool)
      requires DepthBound(b.fs, |dir| + levels)
      modifies this
      ensures Took(b, old(stats), old(entries), VisitOne(b.fs, list, excluded, levels, dir, name), ok, stats, entries)
      decreases levels, 0
    {
      var p := dir + [name];
      if excluded(Join(p, SLASH)) {
        TookNothing(b, stats, entries);
        return true;
      }
      var charged := ChargePath(b, stats, p);
      TookOne(b, stats, entries, p);
      if charged.None? {
        ChildStops(b, list, excluded, levels, dir, name, stats, entries);
        return false;
      }
      stats := charged.value;
      entries := entries + [p];
      ok := true;
      if b.fs[p].Folder? {
        ghost var stats', entries' := stats, entries;
        ok := Collect(p, levels - 1);
        TookThen(b, old(stats), old(entries), [p], stats', entries', Visited(levels - 1, p, list(p)), ok, stats, entries);
      }
    }
  }

  lemma ChildStops(b: Budget, list: Listing, excluded: Exclusion, levels: nat, dir: Path, name: string, stats: Stats, entries: seq<Path>)
    requires !excluded(Join(dir + [name], SLASH)) && ChargePath(b, stats, dir + [name]).None?
    ensures Took(b, stats, entries, VisitOne(b.fs, list, excluded, levels, dir, name), false, stats, entries)
  {
    var p := dir + [name];
    TookOne(b, stats, entries, p);
    if p in b.fs && b.fs[p].Folder? && levels > 0 {
      TookStops(b, stats, entries, [p], Visit(b.fs, list, excluded, levels - 1, p, list(p)), stats, entries);
    }
  }

  /** A listing, in some order, of the paths no prefix of which is excluded. */
  ghost predicate ListsVisible(fs: Files, excluded: Exclusion, paths: seq<Path>) {
    NoRepeats(paths) && forall p :: p in paths <==> p in fs && VisibleFrom(excluded, 0, p)
  }

  lemma VisibleFitAlike(b: Budget, excluded: Exclusion, paths: seq<Path>, paths': seq<Path>)
    requires Sized(b) && ListsVisible(b.fs, excluded, paths) && ListsVisible(b.fs, excluded, paths')
    ensures Fits(b, START, paths) <==> Fits(b, START, paths')
    ensures Names(b, paths) == Names(b, paths')
  {
    SameVerdict(b, paths, paths');
    SumPermutes(NameWeight(b.fs), paths, paths');
    ChargeAllIsFits(b, START, paths);
    ChargeAllIsFits(b, START, paths');
  }

  lemma SortedHasNoRepeats(fs: Files, paths: seq<Path>)
    requires Sorted(fs, paths)
    ensures NoRepeats(paths)
  {
    forall i, j | 0 <= i < j < |paths|
      ensures paths[i] != paths[j]
    {
      EarlierIsTotal(SortKey(fs, paths[i]), SortKey(fs, paths[i]));
    }
  }

  /** Collects, sorts and emits: it fails exactly when the visible paths, in any
      order, do not fit, and otherwise emits their sorted list with their name
      total and the root's byte. */
  method AppendInstalledTree(b: Budget, list: Listing, excluded: Exclusion)
    returns (emitted: Option<seq<Path>>, names: int)
    requires WellFormed(b.fs) && Lists(b.fs, list) && Sized(b)
    ensures forall paths :: ListsVisible(b.fs, excluded, paths) ==> (emitted.Some? <==> Fits(b, START, paths))
    ensures emitted.Some? ==>
      && Sorted(b.fs, emitted.value) && ListsVisible(b.fs, excluded, emitted.value)
      && names == START.names + Names(b, emitted.value)
  {
    ghost var depth := DepthExists(b.fs);
    ghost var visit := Visit(b.fs, list, excluded, depth, [], list([]));
    ChargeAllIsFits(b, START, visit);
    RootVisitIsExact(b.fs, list, excluded, depth);
    forall paths | ListsVisible(b.fs, excluded, paths)
      ensures Fits(b, START, paths) <==> Fits(b, START, visit)
    {
      VisibleFitAlike(b, excluded, paths, visit);
    }
    var collector := new Collector(b, list, excluded);
    var ok := collector.Collect([], depth);
    names := 0;
    if !ok {
      return None, names;
    }
    assert collector.entries == visit;
    var sorted := SortEntries(b.fs, collector.entries);
    SortedHasNoRepeats(b.fs, sorted);
    VisibleFitAlike(b, excluded, sorted, visit);
    emitted, names := Some(sorted), collector.stats.names;
  }

  // -------------------------------------------------------- exclusions

  type Matcher = seq<Glob.Item>

  /** A path is tried as it is and, unless it already ends in one, with a slash. */
  predicate ExcludedRelativePath(rel: string, matchers: seq<Matcher>) {
    exists m :: m in matchers && (Glob.Accepts(m, rel) || (!EndsInSlash(rel) && Glob.Accepts(m, rel + "/")))
  }

  predicate EndsInSlash(rel: string) {
    rel != "" && rel[|rel| - 1] == SLASH
  }

  /** The glob hits the path itself or the path as a directory. */
  predicate Hits(pattern: string, rel: string) {
    Glob.GlobMatch(pattern, rel) || (!EndsInSlash(rel) && Glob.GlobMatch(pattern, rel + "/"))
  }

  ghost predicate Compiled(matcher: Matcher, pattern: string) {
    forall rel :: Glob.Plain(rel) ==> (Glob.Accepts(matcher, rel) <==> Glob.GlobMatch(pattern, rel))
  }

  /** The trimmed pattern is not blank and hits the path. */
  predicate Excludes(pattern: string, rel: string) {
    Text.TrimSpace(pattern) != "" && Hits(Text.TrimSpace(pattern), rel)
  }

  /** A path of the tree never ends in a slash, so it is tried both ways. */
  lemma TreePathsAreTriedTwice(p: Path, pattern: string)
    requires p != [] && AllClean(p)
    ensures Hits(pattern, Join(p, SLASH)) <==>
      Glob.GlobMatch(pattern, Join(p, SLASH)) || Glob.GlobMatch(pattern, Join(p, SLASH) + "/")
  {
    EndsClean(p);
  }

  lemma {:induction false} EndsClean(p: Path)
    requires p != [] && AllClean(p)
    ensures Join(p, SLASH) != "" && Join(p, SLASH)[|Join(p, SLASH)| - 1] != SLASH
  {
    assert p[0] in p;
    if |p| > 1 {
      assert forall c :: c in p[1..] ==> c in p;
      EndsClean(p[1..]);
    }
  }

  /** Compiles the patterns that are not blank; every compilation succeeds. */
  method CompileExcludeMatchers(patterns: seq<string>) returns (matchers: Option<seq<Matcher>>)
    ensures matchers.Some?
    ensures forall rel :: Glob.Plain(rel) ==>
      (ExcludedRelativePath(rel, matchers.value) <==> exists p :: p in patterns && Excludes(p, rel))
  {
    var compiled: seq<Matcher> := [];
    for i := 0 to |patterns|
      invariant AllCompiled(compiled, Kept(Text.TrimSpace, patterns[..i]))
    {
      assert patterns[..i + 1][..i] == patterns[..i];
      var pattern := Text.TrimSpace(patterns[i]);
      if pattern != "" {
        var source := Glob.GlobPatternSource(pattern);
        var items := Glob.ParseAnchored(source);
        PatternCompiles(pattern);
        if items.None? {
          return None;
        }
        compiled := compiled + [items.value];
      }
    }
    assert patterns[..|patterns|] == patterns;
    forall rel | Glob.Plain(rel)
      ensures ExcludedRelativePath(rel, compiled) <==> exists p :: p in patterns && Excludes(p, rel)
    {
      CompiledExclude(compiled, patterns, rel);
    }
    matchers := Some(compiled);
  }

  /** The patterns that are compiled: trimmed, without the blank ones. */
  ghost function Kept(trim: string -> string, patterns: seq<string>): seq<string> {
    if patterns == [] then []
    else
      var last := trim(patterns[|patterns| - 1]);
      Kept(trim, patterns[..|patterns| - 1]) + (if last != "" then [last] else [])
  }

  ghost predicate AllCompiled(compiled: seq<Matcher>, used: seq<string>) {
    |compiled| == |used| && forall j :: 0 <= j < |used| ==> Compiled(compiled[j], used[j])
  }

  lemma CompiledExclude(compiled: seq<Matcher>, patterns: seq<string>, rel: string)
    requires AllCompiled(compiled, Kept(Text.TrimSpace, patterns)) && Glob.Plain(rel)
    ensures ExcludedRelativePath(rel, compiled) <==> exists p :: p in patterns && Excludes(p, rel)
  {
    var hits := p => Hits(p, rel);
    ExclusionMeansHits(compiled, Kept(Text.TrimSpace, patterns), rel);
    KeptMeansExcludes(Text.TrimSpace, hits, patterns);
    assert forall p :: p in patterns ==> (Excludes(p, rel) <==> Text.TrimSpace(p) != "" && hits(Text.TrimSpace(p)));
    assert forall p :: p in Kept(Text.TrimSpace, patterns) ==> (Hits(p, rel) <==> hits(p));
  }

  lemma {:induction false} KeptMeansExcludes(trim: string -> string, hits: string -> bool, patterns: seq<string>)
    ensures (exists p :: p in Kept(trim, patterns) && hits(p)) <==> exists p :: p in patterns && trim(p) != "" && hits(trim(p))
  {
    if patterns != [] {
      var front, last := patterns[..|patterns| - 1], patterns[|patterns| - 1];
      KeptMeansExcludes(trim, hits, front);
      assert patterns == front + [last];
      assert forall p :: p in Kept(trim, front) ==> p in Kept(trim, patterns);
      assert trim(last) != "" ==> trim(last) in Kept(trim, patterns);
    }
  }

  lemma PatternCompiles(pattern: string)
    ensures var items := Glob.ParseAnchored("^" + Glob.Source(Glob.Tokens(pattern)) + "$");
      items.Some? && Compiled(items.value, pattern)
  {
    assert Glob.Plain("");
    forall rel | Glob.Plain(rel)
      ensures var items := Glob.ParseAnchored("^" + Glob.Source(Glob.Tokens(pattern)) + "$");
        items.Some? && (Glob.Accepts(items.value, rel) <==> Glob.GlobMatch(pattern, rel))
    {
      Glob.TranslationMeansGlob(pattern, rel);
    }
    Glob.TranslationMeansGlob(pattern, "");
  }

  lemma ExclusionMeansHits(compiled: seq<Matcher>, used: seq<string>, rel: string)
    requires AllCompiled(compiled, used) && Glob.Plain(rel)
    ensures ExcludedRelativePath(rel, compiled) <==> exists p :: p in used && Hits(p, rel)
  {
    assert Glob.Plain(rel + "/");
    if ExcludedRelativePath(rel, compiled) {
      var m :| m in compiled && (Glob.Accepts(m, rel) || (!EndsInSlash(rel) && Glob.Accepts(m, rel + "/")));
      var j :| 0 <= j < |compiled| && compiled[j] == m;
      assert Hits(used[j], rel) && used[j] in used;
    }
    forall p | p in used && Hits(p, rel)
      ensures ExcludedRelativePath(rel, compiled)
    {
      var j :| 0 <= j < |used| && used[j] == p;
      assert Compiled(compiled[j], p) && compiled[j] in compiled;
    }
  }

  // ------------------------------------------------- producer and verifier

  /** The verifier's charges for an enumeration, entry by entry. */
  function FoldCharge(total: int, entries: seq<Entry>): Option<int>
    decreases |entries|
  {
    if entries == [] then Some(total)
    else
      match ChargeNameBytes(total, entries[0])
      case None => None
      case Some(next) => FoldCharge(next, entries[1..])
  }

  /** The name bytes of a place of the tree; the root is the empty path. */
  function PlaceWeight(fs: Files): Path -> int {
    (p: Path) => if p == [] then START.names else NameWeight(fs)(p)
  }

  /** The enumeration describes the places in the given order. */
  ghost predicate Enumerates(fs: Files, order: seq<Path>, entries: seq<Entry>) {
    |entries| == |order| && forall i :: 0 <= i < |order| ==> DescribesPlace(fs, order[i], entries[i])
  }

  predicate DescribesPlace(fs: Files, p: Path, e: Entry) {
    if p == [] then e.path == "." && e.target == ""
    else p in fs && e.path == Join(p, SLASH) && e.target == Target(fs[p])
  }

  lemma PlaceWeighs(fs: Files, p: Path, e: Entry)
    requires DescribesPlace(fs, p, e)
    ensures PlaceWeight(fs)(p) == |e.path| + |e.target|
  {
    if p != [] {
      assert NameWeight(fs)(p) == NameCharge(p, fs[p]);
    } else {
      assert PlaceWeight(fs)([]) == 1 == |"."|;
    }
  }

  lemma {:induction false} NameBytesAreSum(fs: Files, order: seq<Path>, entries: seq<Entry>)
    requires Enumerates(fs, order, entries)
    ensures NameBytes(entries) == Sum(PlaceWeight(fs), order)
    decreases |order|
  {
    if order != [] {
      var n := |order| - 1;
      NameBytesAreSum(fs, order[..n], entries[..n]);
      SumWithout(PlaceWeight(fs), order, n);
      assert order[..n] + order[n + 1..] == order[..n];
      assert DescribesPlace(fs, order[n], entries[n]);
      PlaceWeighs(fs, order[n], entries[n]);
    }
  }

  /** The verifier's charges succeed exactly when the true total is in budget. */
  lemma {:induction false} FoldIsTotal(total: int, entries: seq<Entry>)
    requires 0 <= total <= MAX_NAME_BYTES
    ensures var sum := total + NameBytes(entries);
      FoldCharge(total, entries) == (if sum <= MAX_NAME_BYTES then Some(sum) else None)
    decreases |entries|
  {
    if entries != [] {
      NameBytesSplit(entries);
      var next := ChargeNameBytes(total, entries[0]);
      if next.Some? {
        FoldIsTotal(next.value, entries[1..]);
      }
    }
  }

  lemma {:induction false} NameBytesSplit(entries: seq<Entry>)
    requires entries != []
    ensures NameBytes(entries) == |entries[0].path| + |entries[0].target| + NameBytes(entries[1..])
  {
    if |entries| > 1 {
      var n := |entries| - 1;
      NameBytesSplit(entries[..n]);
      assert entries[..n][1..] == entries[1..][..n - 1];
    }
  }

  /** With the verifier's limit as its own, the producer's total over the visible
      paths, root byte included, is the verifier's total over any enumeration of
      the root and those paths, in whatever order, and both refuse together. */
  lemma BudgetsAgree(b: Budget, excluded: Exclusion, visible: seq<Path>, order: seq<Path>, entries: seq<Entry>)
    requires WellFormed(b.fs) && ListsVisible(b.fs, excluded, visible)
    requires NoRepeats(order) && (forall p :: p in order <==> p == [] || (p in b.fs && VisibleFrom(excluded, 0, p)))
    requires Enumerates(b.fs, order, entries)
    ensures NameBytes(entries) == START.names + Names(b, visible)
    ensures FoldCharge(0, entries) ==
      if START.names + Names(b, visible) <= MAX_NAME_BYTES then Some(START.names + Names(b, visible)) else None
  {
    PlacesWeighAlike(b.fs, visible, order);
    TotalsAgree(b.fs, order, entries, START.names + Names(b, visible));
  }

  lemma TotalsAgree(fs: Files, order: seq<Path>, entries: seq<Entry>, total: int)
    requires Enumerates(fs, order, entries) && Sum(PlaceWeight(fs), order) == total
    ensures NameBytes(entries) == total
    ensures FoldCharge(0, entries) == if total <= MAX_NAME_BYTES then Some(total) else None
  {
    NameBytesAreSum(fs, order, entries);
    FoldIsTotal(0, entries);
  }

  lemma PlacesWeighAlike(fs: Files, visible: seq<Path>, order: seq<Path>)
    requires WellFormed(fs) && NoRepeats(visible) && (forall p :: p in visible ==> p in fs)
    requires NoRepeats(order) && (forall p :: p in order <==> p == [] || p in visible)
    ensures Sum(PlaceWeight(fs), order) == START.names + Sum(NameWeight(fs), visible)
  {
    var rooted: seq<Path> := [[]] + visible;
    RootedHasNoRepeats(fs, visible);
    assert SameElements(order, rooted);
    SumPermutes(PlaceWeight(fs), order, rooted);
    assert rooted[1..] == visible;
    SumAlike(PlaceWeight(fs), NameWeight(fs), visible);
  }

  lemma RootedHasNoRepeats(fs: Files, visible: seq<Path>)
    requires WellFormed(fs) && NoRepeats(visible) && forall p :: p in visible ==> p in fs
    ensures NoRepeats([[]] + visible)
  {
    assert forall i :: 0 <= i < |visible| ==> visible[i] in fs;
  }

  lemma {:induction false} SumAlike(weight: Path -> int, weight': Path -> int, paths: seq<Path>)
    requires forall p :: p in paths ==> weight(p) == weight'(p)
    ensures Sum(weight, paths) == Sum(weight', paths)
  {
    if paths != [] {
      assert paths[0] in paths;
      SumAlike(weight, weight', paths[1..]);
    }
  }

  /** What the producer emits, the verifier charges to the very same total. */
  lemma EmittedTreeIsChargedAlike(b: Budget, excluded: Exclusion, emitted: seq<Path>, names: int, order: seq<Path>, entries: seq<Entry>)
    requires WellFormed(b.fs) && b.limits.nameBytes == MAX_NAME_BYTES
    requires ListsVisible(b.fs, excluded, emitted) && Fits(b, START, emitted) && names == START.names + Names(b, emitted)
    requires NoRepeats(order) && (forall p :: p in order <==> p == [] || (p in b.fs && VisibleFrom(excluded, 0, p)))
    requires Enumerates(b.fs, order, entries)
    ensures FoldCharge(0, entries) == Some(names)
  {
    BudgetsAgree(b, excluded, emitted, order, entries);
  }
}
