/** Symbolic-link resolution inside an admitted artifact tree. */
module Resolver {
  import opened Wrappers
  import opened Paths
  import opened ArtifactTree

  type Index = map<string, Entry>

  datatype Resolution = Resolution(parts: seq<string>, hopsLeft: nat)

  datatype WalkError = InvalidPath | Escapes | Missing | TooManyHops | LinkCycle | NonDirectory | EmptyPath

  function At(parts: seq<string>): string {
    Join(parts, SLASH)
  }

  predicate Dots(c: string) {
    c == "." || c == ".."
  }

  // ------------------------------------------------------ the bounded walk

  /** The work-list walk with only its hop bound: `resolved` is where it stands,
      `pending` what it still has to consume. */
  function Walk(index: Index, resolved: seq<string>, pending: seq<string>, hops: nat): Result<Resolution, WalkError>
    decreases hops, |pending|
  {
    if pending == [] then Failure(EmptyPath)
    else
      var c, rest := pending[0], pending[1..];
      if c == "." then Walk(index, resolved, rest, hops)
      else if c == ".." then
        if resolved == [] then Failure(Escapes) else Walk(index, resolved[..|resolved| - 1], rest, hops)
      else if At(resolved + [c]) !in index then Failure(Missing)
      else
        var e := index[At(resolved + [c])];
        if e.kind.Symlink? then
          if hops == 0 then Failure(TooManyHops) else Walk(index, resolved, Split(e.target, SLASH) + rest, hops - 1)
        else if rest == [] then Success(Resolution(resolved + [c], hops))
        else if !e.kind.Directory? then Failure(NonDirectory)
        else Walk(index, resolved + [c], rest, hops)
  }

  // ------------------------------------------------- the recursive reading

  /** Where following a path ends; `onEntry` is false when the last component
      was a dot or a dot-dot. */
  datatype Place = Place(parts: seq<string>, hops: nat, onEntry: bool)

  function FollowOne(index: Index, base: seq<string>, c: string, hops: nat): (r: Result<Place, WalkError>)
    ensures r.Success? ==> r.value.hops <= hops
    decreases hops, 0, 1
  {
    if c == "." then Success(Place(base, hops, false))
    else if c == ".." then
      if base == [] then Failure(Escapes) else Success(Place(base[..|base| - 1], hops, false))
    else if At(base + [c]) !in index then Failure(Missing)
    else
      var e := index[At(base + [c])];
      if !e.kind.Symlink? then Success(Place(base + [c], hops, true))
      else if hops == 0 then Failure(TooManyHops)
      else Follow(index, base, Split(e.target, SLASH), hops - 1)
  }

  /** Follows a path from a directory, one component after the other; a link is
      followed to its end before the path goes on. */
  function Follow(index: Index, base: seq<string>, path: seq<string>, hops: nat): (r: Result<Place, WalkError>)
    requires path != []
    ensures r.Success? ==> r.value.hops <= hops
    decreases hops, |path|
  {
    match FollowOne(index, base, path[0], hops)
    case Failure(error) => Failure(error)
    case Success(place) =>
      if |path| == 1 then Success(place)
      else if Blocks(index, place) then Failure(NonDirectory)
      else Follow(index, place.parts, path[1..], place.hops)
  }

  /** The place is an entry that cannot be descended into. */
  predicate Blocks(index: Index, place: Place) {
    place.onEntry && At(place.parts) in index && !index[At(place.parts)].kind.Directory?
  }

  /** A path resolves where following it ends, unless it ends on a dot. */
  function Resolve(index: Index, path: seq<string>, hops: nat): Result<Resolution, WalkError>
    requires path != []
  {
    match Follow(index, [], path, hops)
    case Failure(error) => Failure(error)
    case Success(place) => if place.onEntry then Success(Resolution(place.parts, place.hops)) else Failure(EmptyPath)
  }

  /** How the walk continues once the front of its work list is followed. */
  function Continue(index: Index, followed: Result<Place, WalkError>, rest: seq<string>): Result<Resolution, WalkError> {
    match followed
    case Failure(error) => Failure(error)
    case Success(place) =>
      if rest == [] then
        if place.onEntry then Success(Resolution(place.parts, place.hops)) else Failure(EmptyPath)
      else if Blocks(index, place) then Failure(NonDirectory)
      else Walk(index, place.parts, rest, place.hops)
  }

  lemma {:induction false} WalkFollowsOne(index: Index, base: seq<string>, c: string, rest: seq<string>, hops: nat)
    ensures Walk(index, base, [c] + rest, hops) == Continue(index, FollowOne(index, base, c, hops), rest)
    decreases hops, 0, 1
  {
    assert ([c] + rest)[1..] == rest;
    if !Dots(c) && At(base + [c]) in index && index[At(base + [c])].kind.Symlink? && hops > 0 {
      WalkFollows(index, base, Split(index[At(base + [c])].target, SLASH), rest, hops - 1);
    }
  }

  /** Consuming the front of the work list is following it recursively. */
  lemma {:induction false} WalkFollows(index: Index, base: seq<string>, path: seq<string>, rest: seq<string>, hops: nat)
    requires path != []
    ensures Walk(index, base, path + rest, hops) == Continue(index, Follow(index, base, path, hops), rest)
    decreases hops, |path|
  {
    assert path + rest == [path[0]] + (path[1..] + rest);
    WalkFollowsOne(index, base, path[0], path[1..] + rest, hops);
    var first := FollowOne(index, base, path[0], hops);
    if first.Success? {
      if |path| == 1 {
        assert path[1..] + rest == rest;
      } else if !Blocks(index, first.value) {
        WalkFollows(index, first.value.parts, path[1..], rest, first.value.hops);
      }
    }
  }

  /** The work-list walk computes the recursive reading, error for error. */
  lemma WalkIsResolve(index: Index, path: seq<string>, hops: nat)
    requires path != []
    ensures Walk(index, [], path, hops) == Resolve(index, path, hops)
  {
    WalkFollows(index, [], path, [], hops);
    assert path + [] == path;
  }

  // --------------------------------------------------- where a walk can end

  /** Every prefix of the place is an enumerated directory and no component is
      a dot or a dot-dot. */
  ghost predicate Standing(index: Index, resolved: seq<string>) {
    && (forall n :: 0 < n <= |resolved| ==> At(resolved[..n]) in index && index[At(resolved[..n])].kind.Directory?)
    && (forall c :: c in resolved ==> !Dots(c))
  }

  /** A stored entry that is not a link, inside enumerated directories only. */
  ghost predicate Lands(index: Index, parts: seq<string>) {
    && parts != [] && Standing(index, parts[..|parts| - 1]) && !Dots(parts[|parts| - 1])
    && At(parts) in index && !index[At(parts)].kind.Symlink?
  }

  lemma StandingExtends(index: Index, resolved: seq<string>, c: string)
    requires Standing(index, resolved) && !Dots(c)
    requires At(resolved + [c]) in index && index[At(resolved + [c])].kind.Directory?
    ensures Standing(index, resolved + [c])
  {
    var next := resolved + [c];
    forall n | 0 < n <= |next|
      ensures At(next[..n]) in index && index[At(next[..n])].kind.Directory?
    {
      if n <= |resolved| {
        assert next[..n] == resolved[..n];
      } else {
        assert next[..n] == next;
      }
    }
  }

  lemma StandingShrinks(index: Index, resolved: seq<string>)
    requires Standing(index, resolved) && resolved != []
    ensures Standing(index, resolved[..|resolved| - 1])
  {
    var next := resolved[..|resolved| - 1];
    assert forall n :: 0 < n <= |next| ==> next[..n] == resolved[..n];
  }

  /** Every successful walk ends on a stored entry that is not a link. */
  lemma {:induction false} WalkLands(index: Index, resolved: seq<string>, pending: seq<string>, hops: nat)
    requires Standing(index, resolved) && Walk(index, resolved, pending, hops).Success?
    ensures Lands(index, Walk(index, resolved, pending, hops).value.parts)
    decreases hops, |pending|
  {
    var c, rest := pending[0], pending[1..];
    if c == "." {
      WalkLands(index, resolved, rest, hops);
    } else if c == ".." {
      StandingShrinks(index, resolved);
      WalkLands(index, resolved[..|resolved| - 1], rest, hops);
    } else {
      var e := index[At(resolved + [c])];
      assert (resolved + [c])[..|resolved|] == resolved;
      if e.kind.Symlink? {
        WalkLands(index, resolved, Split(e.target, SLASH) + rest, hops - 1);
      } else if rest != [] {
        StandingExtends(index, resolved, c);
        WalkLands(index, resolved + [c], rest, hops);
      }
    }
  }

  /** From a prefix of a place where a walk can end, the rest of the place is
      walked without following any link. */
  lemma {:induction false} DirectWalk(index: Index, parts: seq<string>, n: nat, hops: nat)
    requires Lands(index, parts) && n < |parts|
    ensures Walk(index, parts[..n], parts[n..], hops) == Success(Resolution(parts, hops))
    decreases |parts| - n
  {
    var init := parts[..|parts| - 1];
    assert parts[..n] + [parts[n]] == parts[..n + 1];
    assert parts[n..][1..] == parts[n + 1..];
    if n == |parts| - 1 {
      assert parts[..n + 1] == parts;
    } else {
      assert init[..n + 1] == parts[..n + 1] && init[n] == parts[n] && parts[n] in init;
      DirectWalk(index, parts, n + 1, hops);
    }
  }

  /** A path that resolves to itself was walked without following any link. */
  lemma CanonicalMeansNoLink(index: Index, parts: seq<string>, hops: nat)
    requires Walk(index, [], parts, hops).Success? && Walk(index, [], parts, hops).value.parts == parts
    ensures Lands(index, parts)
    ensures Walk(index, [], parts, hops) == Success(Resolution(parts, hops))
  {
    WalkLands(index, [], parts, hops);
    DirectWalk(index, parts, 0, hops);
    assert parts[..0] == [] && parts[0..] == parts;
  }

  // --------------------------------------------------- the visited states

  /** The walk standing before a link component. */
  datatype Link = Link(resolved: seq<string>, c: string, rest: seq<string>, hopsLeft: nat)

  function StateKey(resolved: seq<string>, c: string, rest: seq<string>): string {
    At(resolved + [c]) + [NUL] + Join(rest, NUL)
  }

  /** Clean components are recovered from the key. */
  lemma KeyIsInjective(resolved: seq<string>, c: string, rest: seq<string>, resolved': seq<string>, c': string, rest': seq<string>)
    requires AllClean(resolved + [c]) && AllClean(rest) && AllClean(resolved' + [c']) && AllClean(rest')
    requires StateKey(resolved, c, rest) == StateKey(resolved', c', rest')
    ensures resolved == resolved' && c == c' && rest == rest'
  {
    KeySplits(resolved, c, rest);
    KeySplits(resolved', c', rest');
    var parts, parts' := resolved + [c], resolved' + [c'];
    var tail, tail' := if rest == [] then [""] else rest, if rest' == [] then [""] else rest';
    assert ([At(parts)] + tail)[0] == ([At(parts')] + tail')[0];
    assert ([At(parts)] + tail)[1..] == tail && ([At(parts')] + tail')[1..] == tail';
    assert parts[..|parts| - 1] == resolved && parts'[..|parts'| - 1] == resolved';
    assert rest != [] ==> rest[0] in rest;
    assert rest' != [] ==> rest'[0] in rest';
  }

  lemma KeySplits(resolved: seq<string>, c: string, rest: seq<string>)
    requires AllClean(resolved + [c]) && AllClean(rest)
    ensures Split(StateKey(resolved, c, rest), NUL) == [At(resolved + [c])] + (if rest == [] then [""] else rest)
    ensures Split(At(resolved + [c]), SLASH) == resolved + [c]
  {
    SplitJoin(resolved + [c], SLASH);
    JoinFree(resolved + [c], SLASH, NUL);
    SplitAfterFree(At(resolved + [c]), NUL, Join(rest, NUL));
    if rest != [] {
      SplitJoin(rest, NUL);
    }
  }

  /** A number of hops; a replay is claimed for every one. */
  ghost predicate Hops(m: nat) {
    true
  }

  /** From the link, `used` hops lead to the present state: with more hops the
      walk from the link is the walk from here, with fewer it runs out. */
  ghost predicate Replays(index: Index, link: Link, resolved: seq<string>, pending: seq<string>, used: nat) {
    forall m: nat {:trigger Hops(m)} :: Hops(m) ==>
      && Walk(index, link.resolved, [link.c] + link.rest, used + m) == Walk(index, resolved, pending, m)
      && (m < used ==> Walk(index, link.resolved, [link.c] + link.rest, m) == Failure(TooManyHops))
  }

  /** A walk that comes back to a link can only run out of hops. */
  lemma {:induction false} CycleRunsOut(index: Index, link: Link, used: nat, hops: nat)
    requires used > 0 && Replays(index, link, link.resolved, [link.c] + link.rest, used)
    ensures Walk(index, link.resolved, [link.c] + link.rest, hops) == Failure(TooManyHops)
    decreases hops
  {
    assert Hops(hops);
    if hops >= used {
      CycleRunsOut(index, link, used, hops - used);
      assert Hops(hops - used);
    }
  }

  ghost predicate IsLink(index: Index, resolved: seq<string>, c: string) {
    !Dots(c) && At(resolved + [c]) in index && index[At(resolved + [c])].kind.Symlink?
  }

  lemma ReplaysThroughLink(index: Index, link: Link, resolved: seq<string>, c: string, rest: seq<string>, used: nat)
    requires IsLink(index, resolved, c) && Replays(index, link, resolved, [c] + rest, used)
    ensures Replays(index, link, resolved, Split(index[At(resolved + [c])].target, SLASH) + rest, used + 1)
  {
    var pending, pending' := [c] + rest, Split(index[At(resolved + [c])].target, SLASH) + rest;
    assert pending[1..] == rest;
    forall m: nat | Hops(m)
      ensures Walk(index, link.resolved, [link.c] + link.rest, used + 1 + m) == Walk(index, resolved, pending', m)
      ensures m < used + 1 ==> Walk(index, link.resolved, [link.c] + link.rest, m) == Failure(TooManyHops)
    {
      assert Hops(m + 1) && Hops(0);
      assert used + 1 + m == used + (m + 1);
      assert Walk(index, resolved, pending, m + 1) == Walk(index, resolved, pending', m);
      assert Walk(index, resolved, pending, 0) == Failure(TooManyHops);
    }
  }

  lemma ReplaysFromItself(index: Index, link: Link)
    ensures Replays(index, link, link.resolved, [link.c] + link.rest, 0)
  {
  }

  /** A recorded state: its key stands for a clean link state from which the
      present state replays. */
  ghost predicate RecordOk(index: Index, k: string, link: Link, resolved: seq<string>, pending: seq<string>, hopsLeft: nat) {
    && link.hopsLeft > hopsLeft
    && k == StateKey(link.resolved, link.c, link.rest)
    && AllClean(link.resolved + [link.c]) && AllClean(link.rest)
    && Replays(index, link, resolved, pending, link.hopsLeft - hopsLeft)
  }

  ghost predicate Recorded(index: Index, seen: map<string, Link>, resolved: seq<string>, pending: seq<string>, hopsLeft: nat) {
    forall k :: k in seen ==> RecordOk(index, k, seen[k], resolved, pending, hopsLeft)
  }

  /** A step that follows no link keeps a record. */
  lemma RecordStep(index: Index, k: string, link: Link, resolved: seq<string>, pending: seq<string>,
                   resolved': seq<string>, pending': seq<string>, hopsLeft: nat)
    requires RecordOk(index, k, link, resolved, pending, hopsLeft)
    requires forall m: nat :: Walk(index, resolved, pending, m) == Walk(index, resolved', pending', m)
    ensures RecordOk(index, k, link, resolved', pending', hopsLeft)
  {
  }

  lemma RecordedStep(index: Index, seen: map<string, Link>, resolved: seq<string>, pending: seq<string>,
                     resolved': seq<string>, pending': seq<string>, hopsLeft: nat)
    requires Recorded(index, seen, resolved, pending, hopsLeft)
    requires forall m: nat :: Walk(index, resolved, pending, m) == Walk(index, resolved', pending', m)
    ensures Recorded(index, seen, resolved', pending', hopsLeft)
  {
    forall k | k in seen
      ensures RecordOk(index, k, seen[k], resolved', pending', hopsLeft)
    {
      RecordStep(index, k, seen[k], resolved, pending, resolved', pending', hopsLeft);
    }
  }

  /** Following a link records it and keeps every earlier record. */
  lemma RecordedLink(index: Index, seen: map<string, Link>, resolved: seq<string>, c: string, rest: seq<string>, hopsLeft: nat)
    requires hopsLeft > 0 && IsLink(index, resolved, c)
    requires Recorded(index, seen, resolved, [c] + rest, hopsLeft)
    requires AllClean(resolved + [c]) && AllClean(rest)
    ensures Recorded(index, seen[StateKey(resolved, c, rest) := Link(resolved, c, rest, hopsLeft)],
                     resolved, Split(index[At(resolved + [c])].target, SLASH) + rest, hopsLeft - 1)
  {
    var link := Link(resolved, c, rest, hopsLeft);
    var seen' := seen[StateKey(resolved, c, rest) := link];
    var pending' := Split(index[At(resolved + [c])].target, SLASH) + rest;
    forall k | k in seen'
      ensures RecordOk(index, k, seen'[k], resolved, pending', hopsLeft - 1)
    {
      if k == StateKey(resolved, c, rest) {
        ReplaysFromItself(index, link);
        ReplaysThroughLink(index, link, resolved, c, rest, 0);
      } else {
        ReplaysThroughLink(index, seen[k], resolved, c, rest, seen[k].hopsLeft - hopsLeft);
      }
    }
  }

  /** Reaching a recorded state again means the bounded walk runs out of hops. */
  lemma RevisitRunsOut(index: Index, k: string, link: Link, resolved: seq<string>, c: string, rest: seq<string>, hopsLeft: nat)
    requires RecordOk(index, k, link, resolved, [c] + rest, hopsLeft)
    requires AllClean(resolved + [c]) && AllClean(rest) && k == StateKey(resolved, c, rest)
    ensures Walk(index, resolved, [c] + rest, hopsLeft) == Failure(TooManyHops)
  {
    RecordedLinkIsHere(index, k, link, resolved, c, rest, [c] + rest, hopsLeft);
    ReplayRunsOut(index, link, resolved, [c] + rest, link.hopsLeft - hopsLeft, hopsLeft);
  }

  lemma RecordedLinkIsHere(index: Index, k: string, link: Link, resolved: seq<string>, c: string, rest: seq<string>,
                           pending: seq<string>, hopsLeft: nat)
    requires RecordOk(index, k, link, resolved, pending, hopsLeft)
    requires AllClean(resolved + [c]) && AllClean(rest) && k == StateKey(resolved, c, rest)
    ensures link == Link(resolved, c, rest, link.hopsLeft)
  {
    KeyIsInjective(resolved, c, rest, link.resolved, link.c, link.rest);
  }

  lemma ReplayRunsOut(index: Index, link: Link, resolved: seq<string>, pending: seq<string>, used: nat, hops: nat)
    requires used > 0 && Replays(index, link, resolved, pending, used)
    requires resolved == link.resolved && pending == [link.c] + link.rest
    ensures Walk(index, resolved, pending, hops) == Failure(TooManyHops)
  {
    CycleRunsOut(index, link, used, hops);
  }

  /** Every link target of the index splits into clean components. */
  ghost predicate CleanLinks(index: Index) {
    forall p :: p in index && index[p].kind.Symlink? ==> AllClean(Split(index[p].target, SLASH))
  }

  /** What the loop keeps: the bounded walk from the present state is still the
      bounded walk from the start. */
  ghost predicate OnTrack(index: Index, path: seq<string>, seen: map<string, Link>, resolved: seq<string>, pending: seq<string>, hopsLeft: nat) {
    && AllClean(pending) && AllClean(resolved)
    && Recorded(index, seen, resolved, pending, hopsLeft)
    && Walk(index, [], path, TREE_LINK_HOPS) == Walk(index, resolved, pending, hopsLeft)
  }

  /** Dropping a dot, popping a dot-dot or entering a directory. */
  lemma OnTrackStep(index: Index, path: seq<string>, seen: map<string, Link>, resolved: seq<string>, c: string, rest: seq<string>,
                    resolved': seq<string>, hopsLeft: nat)
    requires OnTrack(index, path, seen, resolved, [c] + rest, hopsLeft)
    requires
      || (c == "." && resolved' == resolved)
      || (c == ".." && resolved != [] && resolved' == resolved[..|resolved| - 1])
      || (&& !Dots(c) && rest != [] && resolved' == resolved + [c]
          && At(resolved') in index && index[At(resolved')].kind.Directory?)
    ensures OnTrack(index, path, seen, resolved', rest, hopsLeft)
  {
    var pending := [c] + rest;
    assert pending[0] == c && pending[1..] == rest && c in pending;
    forall m: nat
      ensures Walk(index, resolved, pending, m) == Walk(index, resolved', rest, m)
    {
    }
    RecordedStep(index, seen, resolved, pending, resolved', rest, hopsLeft);
  }

  lemma OnTrackLink(index: Index, path: seq<string>, seen: map<string, Link>, resolved: seq<string>, c: string, rest: seq<string>, hopsLeft: nat)
    requires CleanLinks(index) && OnTrack(index, path, seen, resolved, [c] + rest, hopsLeft)
    requires hopsLeft > 0 && IsLink(index, resolved, c)
    ensures OnTrack(index, path, seen[StateKey(resolved, c, rest) := Link(resolved, c, rest, hopsLeft)],
                    resolved, Split(index[At(resolved + [c])].target, SLASH) + rest, hopsLeft - 1)
  {
    var pending := [c] + rest;
    assert pending[0] == c && pending[1..] == rest && c in pending;
    RecordedLink(index, seen, resolved, c, rest, hopsLeft);
  }

  /** How the bounded walk ends at a component it does not get past. */
  function Stops(index: Index, resolved: seq<string>, c: string, rest: seq<string>, hopsLeft: nat): Option<Result<Resolution, WalkError>> {
    if c == "." then None
    else if c == ".." then if resolved == [] then Some(Failure(Escapes)) else None
    else if At(resolved + [c]) !in index then Some(Failure(Missing))
    else
      var e := index[At(resolved + [c])];
      if e.kind.Symlink? then if hopsLeft == 0 then Some(Failure(TooManyHops)) else None
      else if rest == [] then Some(Success(Resolution(resolved + [c], hopsLeft)))
      else if !e.kind.Directory? then Some(Failure(NonDirectory))
      else None
  }

  lemma StopsEndTheWalk(index: Index, resolved: seq<string>, c: string, rest: seq<string>, hopsLeft: nat)
    ensures Stops(index, resolved, c, rest, hopsLeft).Some? ==>
      Walk(index, resolved, [c] + rest, hopsLeft) == Stops(index, resolved, c, rest, hopsLeft).value
  {
    assert ([c] + rest)[1..] == rest;
  }

  lemma OnTrackStops(index: Index, path: seq<string>, seen: map<string, Link>, resolved: seq<string>, c: string, rest: seq<string>, hopsLeft: nat)
    requires OnTrack(index, path, seen, resolved, [c] + rest, hopsLeft) && Stops(index, resolved, c, rest, hopsLeft).Some?
    ensures Walk(index, [], path, TREE_LINK_HOPS) == Stops(index, resolved, c, rest, hopsLeft).value
  {
    StopsEndTheWalk(index, resolved, c, rest, hopsLeft);
  }

  lemma OnTrackRevisits(index: Index, path: seq<string>, seen: map<string, Link>, resolved: seq<string>, c: string, rest: seq<string>, hopsLeft: nat)
    requires OnTrack(index, path, seen, resolved, [c] + rest, hopsLeft) && StateKey(resolved, c, rest) in seen
    ensures Walk(index, [], path, TREE_LINK_HOPS) == Failure(TooManyHops)
  {
    var k := StateKey(resolved, c, rest);
    var pending := [c] + rest;
    assert c in pending && forall x :: x in rest ==> x in pending;
    RevisitRunsOut(index, k, seen[k], resolved, c, rest, hopsLeft);
  }

  /** Expands a link in front of the remaining components, unless the state was
      visited before. */
  method ExpandLink(index: Index, path: seq<string>, visited: set<string>, resolved: seq<string>, c: string, rest: seq<string>,
                    ghost seen: map<string, Link>, ghost left: nat)
    returns (cycle: bool, pending: seq<string>, visited': set<string>, ghost seen': map<string, Link>)
    requires CleanLinks(index) && OnTrack(index, path, seen, resolved, [c] + rest, left) && visited == seen.Keys
    requires left > 0 && IsLink(index, resolved, c)
    ensures cycle ==> Walk(index, [], path, TREE_LINK_HOPS) == Failure(TooManyHops)
    ensures !cycle ==> visited' == seen'.Keys && OnTrack(index, path, seen', resolved, pending, left - 1)
  {
    var candidate := At(resolved + [c]);
    var key := candidate + [NUL] + Join(rest, NUL);
    pending := Split(index[candidate].target, SLASH) + rest;
    if key in visited {
      OnTrackRevisits(index, path, seen, resolved, c, rest, left);
      return true, pending, visited, seen;
    }
    OnTrackLink(index, path, seen, resolved, c, rest, left);
    cycle, visited', seen' := false, visited + {key}, seen[key := Link(resolved, c, rest, left)];
  }

  /** The resolver's loop, with its hop count and its visited states. It returns
      what the bounded walk returns, except that it may report a cycle where the
      bounded walk runs out of hops. */
  method WalkPath(index: Index, path: seq<string>) returns (r: Result<Resolution, WalkError>)
    requires CleanLinks(index) && AllClean(path)
    ensures r == Walk(index, [], path, TREE_LINK_HOPS)
      || (r == Failure(LinkCycle) && Walk(index, [], path, TREE_LINK_HOPS) == Failure(TooManyHops))
  {
    var pending, resolved: seq<string> := path, [];
    var visited: set<string> := {};
    ghost var seen: map<string, Link> := map[];
    var hops := 0;
    ghost var left: nat := TREE_LINK_HOPS;
    while pending != []
      invariant hops + left == TREE_LINK_HOPS && visited == seen.Keys
      invariant OnTrack(index, path, seen, resolved, pending, left)
      decreases left, |pending|
    {
      var c, rest := pending[0], pending[1..];
      assert pending == [c] + rest;
      var stops := Stops(index, resolved, c, rest, TREE_LINK_HOPS - hops);
      if stops.Some? {
        OnTrackStops(index, path, seen, resolved, c, rest, left);
        return stops.value;
      }
      var next := resolved;
      if c == ".." {
        next := resolved[..|resolved| - 1];
      } else if c != "." {
        if index[At(resolved + [c])].kind.Symlink? {
          var cycle;
          cycle, pending, visited, seen := ExpandLink(index, path, visited, resolved, c, rest, seen, left);
          if cycle {
            return Failure(LinkCycle);
          }
          hops, left := hops + 1, left - 1;
          continue;
        }
        next := resolved + [c];
      }
      OnTrackStep(index, path, seen, resolved, c, rest, next, left);
      resolved, pending := next, rest;
    }
    r := Failure(EmptyPath);
  }

  // ------------------------------------------------------ the entry points

  /** Resolves a path of a Program tree. */
  method ResolveProgramArtifactPath(index: Index, value: string) returns (r: Result<Resolution, WalkError>)
    requires CleanLinks(index)
    ensures !ValidPath(value, Program) || value == "." ==> r == Failure(InvalidPath)
    ensures ValidPath(value, Program) && value != "." ==>
      var resolved := Resolve(index, Split(value, SLASH), TREE_LINK_HOPS);
      r == resolved || (r == Failure(LinkCycle) && resolved == Failure(TooManyHops))
    ensures r.Success? ==> Lands(index, r.value.parts) && AllClean(r.value.parts)
  {
    if !ValidPath(value, Program) || value == "." {
      return Failure(InvalidPath);
    }
    var path := Split(value, SLASH);
    assert forall c :: c in path ==> ValidComponent(c);
    SplitIsClean(value);
    r := WalkPath(index, path);
    WalkIsResolve(index, path, TREE_LINK_HOPS);
    if r.Success? {
      WalkLands(index, [], path, TREE_LINK_HOPS);
      WalkIsClean(index, [], path, TREE_LINK_HOPS);
    }
  }

  /** A walk over clean components ends on clean components. */
  lemma {:induction false} WalkIsClean(index: Index, resolved: seq<string>, pending: seq<string>, hops: nat)
    requires CleanLinks(index) && AllClean(resolved) && AllClean(pending) && Walk(index, resolved, pending, hops).Success?
    ensures AllClean(Walk(index, resolved, pending, hops).value.parts)
    decreases hops, |pending|
  {
    var c, rest := pending[0], pending[1..];
    assert c in pending;
    if c == "." {
      WalkIsClean(index, resolved, rest, hops);
    } else if c == ".." {
      WalkIsClean(index, resolved[..|resolved| - 1], rest, hops);
    } else {
      var e := index[At(resolved + [c])];
      if e.kind.Symlink? {
        WalkIsClean(index, resolved, Split(e.target, SLASH) + rest, hops - 1);
      } else if rest != [] {
        WalkIsClean(index, resolved + [c], rest, hops);
      }
    }
  }

  const ENTRY_PREFIX: string := "helmr/app/entry-"
  const ENTRY_SUFFIX: string := ".mjs"

  /** The generated declaration entry modules: digits between fixed ends. */
  predicate IsDeclarationModule(value: string) {
    && |ENTRY_PREFIX| + |ENTRY_SUFFIX| < |value|
    && value[..|ENTRY_PREFIX|] == ENTRY_PREFIX
    && value[|value| - |ENTRY_SUFFIX|..] == ENTRY_SUFFIX
    && forall i :: |ENTRY_PREFIX| <= i < |value| - |ENTRY_SUFFIX| ==> '0' <= value[i] <= '9'
  }

  predicate Digits(s: string) {
    s != "" && forall i :: 0 <= i < |s| ==> '0' <= s[i] <= '9'
  }

  /** A name is a generated module's exactly when it is some digits between the
      two ends. */
  lemma DeclarationModuleExactly(value: string)
    ensures IsDeclarationModule(value) <==> exists digits :: Digits(digits) && value == ENTRY_PREFIX + digits + ENTRY_SUFFIX
  {
    var p, n := |ENTRY_PREFIX|, |value| - |ENTRY_SUFFIX|;
    if IsDeclarationModule(value) {
      var digits := value[p..n];
      assert Digits(digits) && value == ENTRY_PREFIX + digits + ENTRY_SUFFIX;
    }
    if digits :| Digits(digits) && value == ENTRY_PREFIX + digits + ENTRY_SUFFIX {
      assert value[..p] == ENTRY_PREFIX && value[p..n] == digits && value[n..] == ENTRY_SUFFIX;
      assert forall i :: p <= i < n ==> value[i] == digits[i - p];
    }
  }

  /** Accepts exactly the regular files that stand at the declared path itself,
      inside enumerated directories only: no link was followed. */
  method VerifyDeclarationModule(index: Index, value: string) returns (ok: bool)
    requires CleanLinks(index)
    ensures ok <==>
      && ValidPath(value, Program) && value != "." && IsDeclarationModule(value)
      && Lands(index, Split(value, SLASH)) && value in index && index[value].kind.Regular?
  {
    JoinSplit(value, SLASH);
    if !ValidPath(value, Program) || !IsDeclarationModule(value) {
      return false;
    }
    var r := ResolveProgramArtifactPath(index, value);
    ghost var path := Split(value, SLASH);
    WalkIsResolve(index, path, TREE_LINK_HOPS);
    if Lands(index, path) {
      DirectWalk(index, path, 0, TREE_LINK_HOPS);
      assert path[..0] == [] && path[0..] == path;
    }
    if r.Failure? {
      return false;
    }
    ok := index[At(r.value.parts)].kind.Regular? && At(r.value.parts) == value;
    SplitJoin(r.value.parts, SLASH);
  }

  // ------------------------------------------------ on every accepted tree

  /** The resolver's assumption holds of every accepted tree. */
  lemma AcceptedLinksAreClean(entries: seq<Entry>, fs: Superblock, role: Role, index: Index)
    requires Acceptable(entries, fs, role) && IsIndex(index, entries)
    ensures CleanLinks(index)
  {
    forall p | p in index && index[p].kind.Symlink?
      ensures AllClean(Split(index[p].target, SLASH))
    {
      LinksAreClean(entries, fs, role, index[p]);
    }
  }

  /** In an accepted tree every enumerated path but the root that is not a link
      resolves to itself with no hop used, whatever the hop bound. */
  lemma AcceptedPathsResolveToThemselves(entries: seq<Entry>, fs: Superblock, role: Role, index: Index, path: string, hops: nat)
    requires Acceptable(entries, fs, role) && IsIndex(index, entries)
    requires path in index && path != "." && !index[path].kind.Symlink?
    ensures Lands(index, Split(path, SLASH))
    ensures Resolve(index, Split(path, SLASH), hops) == Success(Resolution(Split(path, SLASH), hops))
  {
    var parts := Split(path, SLASH);
    var e := index[path];
    PathsAreClean(entries, fs, role, e);
    JoinSplit(path, SLASH);
    EnumeratedLands(entries, index, parts);
    DirectWalk(index, parts, 0, hops);
    assert parts[..0] == [] && parts[0..] == parts;
    WalkIsResolve(index, parts, hops);
  }

  lemma EnumeratedLands(entries: seq<Entry>, index: Index, parts: seq<string>)
    requires HasParents(entries) && IsIndex(index, entries)
    requires parts != [] && (forall c :: c in parts ==> Free(c, SLASH) && !Dots(c))
    requires At(parts) in index && !index[At(parts)].kind.Symlink?
    ensures Lands(index, parts)
  {
    var init := parts[..|parts| - 1];
    assert Listed(entries, At(parts)) by {
      assert index[At(parts)] in entries;
    }
    forall n | 0 < n <= |init|
      ensures At(init[..n]) in index && index[At(init[..n])].kind.Directory?
    {
      assert init[..n] == parts[..n];
      PrefixesAreDirectories(entries, parts, n);
      IndexFindsDirectories(index, entries, At(parts[..n]));
    }
  }
}
