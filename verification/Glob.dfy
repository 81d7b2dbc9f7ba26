/** Exclude patterns: the translation of a glob into a regular expression, the
    regular-expression fragment it produces, and a direct reading of globs.

    Paths are sequences of characters. */
module Glob {
  import opened Wrappers

  // ------------------------------------------------ the direct reading

  predicate StartsWith(s: string, prefix: string) {
    |prefix| <= |s| && s[..|prefix|] == prefix
  }

  predicate NoSlash(s: string) {
    forall i :: 0 <= i < |s| ==> s[i] != '/'
  }

  /** What a glob means: `**` slash skips any leading directories or nothing,
      `**` any text, `*` any text without a slash, `?` one character that is not
      a slash, and every other character itself. */
  predicate GlobMatch(pattern: string, path: string)
    decreases |pattern|
  {
    if pattern == "" then path == ""
    else if StartsWith(pattern, "**/") then
      GlobMatch(pattern[3..], path)
      || exists k :: 0 <= k < |path| && path[k] == '/' && GlobMatch(pattern[3..], path[k + 1..])
    else if StartsWith(pattern, "**") then
      exists k :: 0 <= k <= |path| && GlobMatch(pattern[2..], path[k..])
    else if pattern[0] == '*' then
      exists k :: 0 <= k <= |path| && NoSlash(path[..k]) && GlobMatch(pattern[1..], path[k..])
    else if pattern[0] == '?' then
      path != "" && path[0] != '/' && GlobMatch(pattern[1..], path[1..])
    else
      path != "" && path[0] == pattern[0] && GlobMatch(pattern[1..], path[1..])
  }

  // ------------------------------------------------- regular expressions

  datatype Class = AnyButNewline | NotSlash | Literal(c: char)

  datatype Item = One(set_: Class) | Star(set_: Class) | Optional(group: seq<Item>)

  predicate In(k: Class, c: char) {
    match k
    case AnyButNewline => c != '\n'
    case NotSlash => c != '/'
    case Literal(l) => c == l
  }

  function Size(items: seq<Item>): nat {
    if items == [] then 0 else ItemSize(items[0]) + Size(items[1..])
  }

  function ItemSize(item: Item): nat {
    match item
    case Optional(group) => 1 + Size(group)
    case _ => 1
  }

  lemma {:induction false} SizeAppends(a: seq<Item>, b: seq<Item>)
    ensures Size(a + b) == Size(a) + Size(b)
  {
    if a == [] {
      assert a + b == b;
    } else {
      assert (a + b)[1..] == a[1..] + b;
      SizeAppends(a[1..], b);
    }
  }

  /** The anchored expression accepts the text. */
  predicate Accepts(items: seq<Item>, s: string)
    decreases |s|, Size(items)
  {
    if items == [] then s == ""
    else
      assert Size(items) == ItemSize(items[0]) + Size(items[1..]);
      match items[0]
      case One(k) => s != "" && In(k, s[0]) && Accepts(items[1..], s[1..])
      case Star(k) => Accepts(items[1..], s) || (s != "" && In(k, s[0]) && Accepts(items, s[1..]))
      case Optional(group) =>
        SizeAppends(group, items[1..]);
        Accepts(items[1..], s) || Accepts(group + items[1..], s)
  }

  predicate AllIn(k: Class, s: string) {
    forall i :: 0 <= i < |s| ==> In(k, s[i])
  }

  /** A star consumes any run of its class. */
  lemma {:induction false} StarConsumes(k: Class, rest: seq<Item>, s: string)
    ensures Accepts([Star(k)] + rest, s) <==> exists n :: 0 <= n <= |s| && AllIn(k, s[..n]) && Accepts(rest, s[n..])
    decreases |s|
  {
    var items := [Star(k)] + rest;
    assert items[1..] == rest;
    if s == "" {
      assert s[..0] == "" && s[0..] == "";
    } else {
      StarConsumes(k, rest, s[1..]);
      assert s[0..] == s && s[..0] == "";
      if In(k, s[0]) && Accepts(items, s[1..]) {
        var n :| 0 <= n <= |s[1..]| && AllIn(k, s[1..][..n]) && Accepts(rest, s[1..][n..]);
        assert s[..n + 1] == [s[0]] + s[1..][..n] && s[n + 1..] == s[1..][n..];
      }
      forall n | 0 < n <= |s| && AllIn(k, s[..n]) && Accepts(rest, s[n..])
        ensures In(k, s[0]) && Accepts(items, s[1..])
      {
        assert s[..n][0] == s[0] && s[1..][..n - 1] == s[..n][1..] && s[1..][n - 1..] == s[n..];
      }
    }
  }

  // ------------------------------------------------------- translation

  /** What the translator reads off the front of a pattern. */
  datatype Token = Directories | Text | Segment | Single | Exact(c: char)

  predicate Meta(c: char) {
    c in "\\.+*?()|[]{}^$"
  }

  function Quote(c: char): string {
    if Meta(c) then ['\\', c] else [c]
  }

  function Render(t: Token): string {
    match t
    case Directories => "(?:.*/)?"
    case Text => ".*"
    case Segment => "[^/]*"
    case Single => "[^/]"
    case Exact(c) => Quote(c)
  }

  function Width(t: Token): nat {
    match t
    case Directories => 3
    case Text => 2
    case _ => 1
  }

  function Front(pattern: string): (t: Token)
    requires pattern != ""
    ensures 0 < Width(t) <= |pattern|
  {
    if StartsWith(pattern, "**/") then Directories
    else if StartsWith(pattern, "**") then Text
    else if pattern[0] == '*' then Segment
    else if pattern[0] == '?' then Single
    else Exact(pattern[0])
  }

  function Tokens(pattern: string): seq<Token> {
    if pattern == "" then [] else [Front(pattern)] + Tokens(pattern[Width(Front(pattern))..])
  }

  function Source(tokens: seq<Token>): string {
    if tokens == [] then "" else Render(tokens[0]) + Source(tokens[1..])
  }

  /** The index loop over the pattern. */
  method GlobPatternSource(pattern: string) returns (source: string)
    ensures source == "^" + Source(Tokens(pattern)) + "$"
  {
    source := "^";
    var index := 0;
    assert pattern[0..] == pattern;
    while index < |pattern|
      invariant 0 <= index <= |pattern|
      invariant source + Source(Tokens(pattern[index..])) == "^" + Source(Tokens(pattern))
    {
      TokenStep(pattern, index, source);
      var letter := pattern[index];
      var doubled := letter == '*' && index + 1 < |pattern| && pattern[index + 1] == '*';
      if doubled && index + 2 < |pattern| && pattern[index + 2] == '/' {
        source := source + "(?:.*/)?";
        index := index + 3;
      } else if doubled {
        source := source + ".*";
        index := index + 2;
      } else if letter == '*' {
        source := source + "[^/]*";
        index := index + 1;
      } else if letter == '?' {
        source := source + "[^/]";
        index := index + 1;
      } else {
        source := source + Quote(letter);
        index := index + 1;
      }
    }
    assert pattern[index..] == "";
    source := source + "$";
  }

  /** What the translator reads at an index, as the loop tests it. */
  function ReadAt(pattern: string, index: nat): Token
    requires index < |pattern|
  {
    var doubled := pattern[index] == '*' && index + 1 < |pattern| && pattern[index + 1] == '*';
    if doubled && index + 2 < |pattern| && pattern[index + 2] == '/' then Directories
    else if doubled then Text
    else if pattern[index] == '*' then Segment
    else if pattern[index] == '?' then Single
    else Exact(pattern[index])
  }

  lemma ReadAtIsFront(pattern: string, index: nat)
    requires index < |pattern|
    ensures ReadAt(pattern, index) == Front(pattern[index..])
  {
    var rest := pattern[index..];
    assert |rest| >= 2 ==> rest[..2] == [rest[0], rest[1]];
    assert |rest| >= 3 ==> rest[..3] == [rest[0], rest[1], rest[2]];
  }

  lemma TokenStep(pattern: string, index: nat, source: string)
    requires index < |pattern|
    ensures var t := ReadAt(pattern, index);
      && index + Width(t) <= |pattern|
      && source + Source(Tokens(pattern[index..])) == (source + Render(t)) + Source(Tokens(pattern[index + Width(t)..]))
  {
    ReadAtIsFront(pattern, index);
    var t := ReadAt(pattern, index);
    assert pattern[index..][Width(t)..] == pattern[index + Width(t)..];
    var rest := Tokens(pattern[index + Width(t)..]);
    assert ([t] + rest)[1..] == rest;
  }

  // ------------------------------------- reading the expression back

  /** A repetition operator stands at the head. */
  predicate Repeats(s: string) {
    s != "" && s[0] in "*+?{"
  }

  datatype Parsed<T> = NoParse | Parsed(value: T, rest: string)

  function ParseClass(s: string): (p: Parsed<Class>)
    ensures p.Parsed? ==> |p.rest| < |s|
  {
    if s == "" then NoParse
    else if s[0] == '.' then Parsed(AnyButNewline, s[1..])
    else if StartsWith(s, "[^/]") then Parsed(NotSlash, s[4..])
    else if s[0] == '\\' then if |s| >= 2 && Meta(s[1]) then Parsed(Literal(s[1]), s[2..]) else NoParse
    else if Meta(s[0]) then NoParse
    else Parsed(Literal(s[0]), s[1..])
  }

  function ParseItem(s: string): (p: Parsed<Item>)
    ensures p.Parsed? ==> |p.rest| < |s|
    decreases |s|, 0
  {
    if StartsWith(s, "(?:") then
      var group := ParseItems(s[3..]);
      if group.Parsed? && StartsWith(group.rest, ")?") && !Repeats(group.rest[2..])
      then Parsed(Optional(group.value), group.rest[2..]) else NoParse
    else
      var k := ParseClass(s);
      if k.NoParse? then NoParse
      else if StartsWith(k.rest, "*") then if Repeats(k.rest[1..]) then NoParse else Parsed(Star(k.value), k.rest[1..])
      else if Repeats(k.rest) then NoParse
      else Parsed(One(k.value), k.rest)
  }

  /** Items up to the end of the group, the final anchor or the end of text. */
  function ParseItems(s: string): (p: Parsed<seq<Item>>)
    ensures p.Parsed? ==> |p.rest| <= |s|
    decreases |s|, 1
  {
    if s == "" || s[0] == ')' || s == "$" then Parsed([], s)
    else
      var first := ParseItem(s);
      if first.NoParse? then NoParse
      else
        var more := ParseItems(first.rest);
        if more.NoParse? then NoParse else Parsed([first.value] + more.value, more.rest)
  }

  /** An expression anchored at both ends. */
  function ParseAnchored(s: string): Option<seq<Item>> {
    if !StartsWith(s, "^") then None
    else
      var items := ParseItems(s[1..]);
      if items.Parsed? && items.rest == "$" then Some(items.value) else None
  }

  function ItemOf(t: Token): Item {
    match t
    case Directories => Optional([Star(AnyButNewline), One(Literal('/'))])
    case Text => Star(AnyButNewline)
    case Segment => Star(NotSlash)
    case Single => One(NotSlash)
    case Exact(c) => One(Literal(c))
  }

  function Items(tokens: seq<Token>): seq<Item> {
    if tokens == [] then [] else [ItemOf(tokens[0])] + Items(tokens[1..])
  }

  lemma StartsWithFirst(s: string, prefix: string)
    requires s != "" && prefix != "" && s[0] != prefix[0]
    ensures !StartsWith(s, prefix)
  {
  }

  /** A class without a repetition, and a class with a star. */
  lemma ParseOne(s: string, k: Class, rest: string)
    requires s != "" && s[0] != '(' && ParseClass(s) == Parsed(k, rest) && !Repeats(rest)
    ensures ParseItem(s) == Parsed(One(k), rest)
  {
    StartsWithFirst(s, "(?:");
  }

  lemma ParseStar(s: string, k: Class, rest: string)
    requires s != "" && s[0] != '(' && ParseClass(s) == Parsed(k, "*" + rest) && !Repeats(rest)
    ensures ParseItem(s) == Parsed(Star(k), rest)
  {
    StartsWithFirst(s, "(?:");
    var starred := "*" + rest;
    assert starred[..1] == "*" && starred[1..] == rest;
  }

  lemma ParseAny(rest: string)
    ensures ParseClass("." + rest) == Parsed(AnyButNewline, rest)
  {
    assert ("." + rest)[1..] == rest;
  }

  lemma ParseNotSlash(rest: string)
    ensures ParseClass("[^/]" + rest) == Parsed(NotSlash, rest)
  {
    var s := "[^/]" + rest;
    assert s[..4] == "[^/]" && s[4..] == rest;
  }

  lemma ParseQuoted(c: char, rest: string)
    ensures ParseClass(Quote(c) + rest) == Parsed(Literal(c), rest)
    ensures Quote(c)[0] != '(' && Quote(c)[0] != ')' && Quote(c)[0] !in "*+?{" && Quote(c)[0] != '$'
  {
    var s := Quote(c) + rest;
    if Meta(c) {
      StartsWithFirst(s, "[^/]");
      assert s[2..] == rest;
    } else {
      assert s[0] != '[' && s[0] != '.';
      StartsWithFirst(s, "[^/]");
      assert s[1..] == rest;
    }
  }

  lemma ParseMore(s: string, first: Item, mid: string, items: seq<Item>, rest: string)
    requires s != "" && s[0] != ')' && s != "$"
    requires ParseItem(s) == Parsed(first, mid) && ParseItems(mid) == Parsed(items, rest)
    ensures ParseItems(s) == Parsed([first] + items, rest)
  {
  }

  lemma ParseGroup(inner: string, items: seq<Item>, rest: string)
    requires ParseItems(inner) == Parsed(items, ")?" + rest) && !Repeats(rest)
    ensures ParseItem("(?:" + inner) == Parsed(Optional(items), rest)
  {
    var s, close := "(?:" + inner, ")?" + rest;
    assert s[..3] == "(?:" && s[3..] == inner;
    assert close[..2] == ")?" && close[2..] == rest;
  }

  lemma ParseSlash(close: string)
    requires close != "" && close[0] == ')'
    ensures ParseItems("/" + close) == Parsed([One(Literal('/'))], close)
  {
    var slash := "/" + close;
    ParseQuoted('/', close);
    ParseOne(slash, Literal('/'), close);
    ParseMore(slash, One(Literal('/')), close, [], close);
    assert [One(Literal('/'))] + [] == [One(Literal('/'))];
  }

  lemma ParseAnyStar(rest: string)
    requires !Repeats(rest)
    ensures ParseItem(".*" + rest) == Parsed(Star(AnyButNewline), rest)
  {
    var s := "." + ("*" + rest);
    ParseAny("*" + rest);
    ParseStar(s, AnyButNewline, rest);
    assert s == ".*" + rest;
  }

  lemma ParseFolders(close: string)
    requires close != "" && close[0] == ')'
    ensures ParseItems(".*/" + close) == Parsed([Star(AnyButNewline), One(Literal('/'))], close)
  {
    var slash := "/" + close;
    ParseSlash(close);
    ParseAnyStar(slash);
    assert ".*" + slash == ".*/" + close;
    ParseMore(".*/" + close, Star(AnyButNewline), slash, [One(Literal('/'))], close);
    assert [Star(AnyButNewline)] + [One(Literal('/'))] == [Star(AnyButNewline), One(Literal('/'))];
  }

  lemma ParseDirectories(rest: string)
    requires !Repeats(rest)
    ensures ParseItem("(?:.*/)?" + rest) == Parsed(ItemOf(Directories), rest)
  {
    var close := ")?" + rest;
    ParseFolders(close);
    ParseGroup(".*/" + close, [Star(AnyButNewline), One(Literal('/'))], rest);
    assert "(?:.*/)?" + rest == "(?:" + (".*/" + close);
  }

  lemma ParseRendered(t: Token, rest: string)
    requires !Repeats(rest)
    ensures ParseItem(Render(t) + rest) == Parsed(ItemOf(t), rest)
    ensures Render(t)[0] != ')' && Render(t)[0] !in "*+?{" && Render(t)[0] != '$'
  {
    var s := Render(t) + rest;
    match t
    case Directories => ParseDirectories(rest);
    case Text => ParseAnyStar(rest);
    case Segment =>
      assert s == "[^/]" + ("*" + rest);
      ParseNotSlash("*" + rest);
      ParseStar(s, NotSlash, rest);
    case Single =>
      ParseNotSlash(rest);
      ParseOne(s, NotSlash, rest);
    case Exact(c) =>
      ParseQuoted(c, rest);
      ParseOne(s, Literal(c), rest);
  }

  /** The expression built for a list of tokens reads back as their items. */
  lemma {:induction false} SourceParses(tokens: seq<Token>)
    ensures ParseItems(Source(tokens) + "$") == Parsed(Items(tokens), "$")
    ensures !Repeats(Source(tokens) + "$")
  {
    if tokens != [] {
      SourceParses(tokens[1..]);
      var rest := Source(tokens[1..]) + "$";
      assert Source(tokens) + "$" == Render(tokens[0]) + rest;
      ParseRendered(tokens[0], rest);
      var s := Render(tokens[0]) + rest;
      assert s[0] == Render(tokens[0])[0];
    }
  }

  // ------------------------------------------------ same paths accepted

  predicate Plain(path: string) {
    AllIn(AnyButNewline, path)
  }

  lemma OneConsumes(k: Class, rest: seq<Item>, s: string)
    ensures Accepts([One(k)] + rest, s) <==> s != "" && In(k, s[0]) && Accepts(rest, s[1..])
  {
    assert ([One(k)] + rest)[1..] == rest;
  }

  /** The optional directory prefix skips to just after some slash, or nothing. */
  lemma DirectoriesConsume(rest: seq<Item>, s: string)
    requires Plain(s)
    ensures Accepts([ItemOf(Directories)] + rest, s) <==>
      Accepts(rest, s) || exists k :: 0 <= k < |s| && s[k] == '/' && Accepts(rest, s[k + 1..])
  {
    var group := [Star(AnyButNewline), One(Literal('/'))];
    var items := [ItemOf(Directories)] + rest;
    var after := [One(Literal('/'))] + rest;
    assert items[1..] == rest && group + rest == [Star(AnyButNewline)] + after;
    StarConsumes(AnyButNewline, after, s);
    forall n | 0 <= n <= |s|
      ensures Accepts(after, s[n..]) <==> n < |s| && s[n] == '/' && Accepts(rest, s[n + 1..])
    {
      OneConsumes(Literal('/'), rest, s[n..]);
      if n < |s| {
        assert s[n..][1..] == s[n + 1..];
      }
    }
    if Accepts([Star(AnyButNewline)] + after, s) {
      var n :| 0 <= n <= |s| && AllIn(AnyButNewline, s[..n]) && Accepts(after, s[n..]);
      assert s[n] == '/';
    }
  }

  /** The items of a pattern accept exactly the paths the glob matches. */
  lemma {:induction false} ItemsMeanGlob(pattern: string, path: string)
    requires Plain(path)
    ensures Accepts(Items(Tokens(pattern)), path) <==> GlobMatch(pattern, path)
    decreases |pattern|
  {
    if pattern != "" {
      var t := Front(pattern);
      var left := pattern[Width(t)..];
      var rest := Items(Tokens(left));
      assert ([t] + Tokens(left))[1..] == Tokens(left);
      assert Items(Tokens(pattern)) == [ItemOf(t)] + rest;
      forall k | 0 <= k <= |path|
        ensures Accepts(rest, path[k..]) <==> GlobMatch(left, path[k..])
      {
        ItemsMeanGlob(left, path[k..]);
      }
      assert path[0..] == path;
      match t
      case Directories => DirectoriesConsume(rest, path);
      case Text => StarConsumes(AnyButNewline, rest, path);
      case Segment =>
        StarConsumes(NotSlash, rest, path);
        assert forall k :: 0 <= k <= |path| ==> AllIn(NotSlash, path[..k]) == NoSlash(path[..k]);
      case Single => OneConsumes(NotSlash, rest, path);
      case Exact(c) => OneConsumes(Literal(c), rest, path);
    }
  }

  /** The expression the index loop builds reads back as an anchored expression
      that accepts exactly the paths the glob matches. */
  lemma TranslationMeansGlob(pattern: string, path: string)
    requires Plain(path)
    ensures var items := ParseAnchored("^" + Source(Tokens(pattern)) + "$");
      items.Some? && (Accepts(items.value, path) <==> GlobMatch(pattern, path))
  {
    var source := "^" + Source(Tokens(pattern)) + "$";
    SourceParses(Tokens(pattern));
    assert source[..1] == "^" && source[1..] == Source(Tokens(pattern)) + "$";
    ItemsMeanGlob(pattern, path);
  }
}
