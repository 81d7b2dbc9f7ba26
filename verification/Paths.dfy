/** Slash-separated paths of artifact trees.

    A string holds one character per byte, so `|s|` is the byte length. */
module Paths {

  const SLASH: char := '/'
  const NUL: char := '\0'

  const TREE_DEPTH: nat := 128
  const TREE_COMPONENT_BYTES: nat := 255
  const TREE_PATH_BYTES: nat := 4096
  const TREE_LINK_BYTES: nat := 4095
  const TREE_LINK_HOPS: nat := 40

  // ------------------------------------------------------ split and join

  function Split(s: string, sep: char): (parts: seq<string>)
    ensures |parts| > 0
  {
    if s == "" then [""]
    else if s[0] == sep then [""] + Split(s[1..], sep)
    else var parts := Split(s[1..], sep); [[s[0]] + parts[0]] + parts[1..]
  }

  function Join(parts: seq<string>, sep: char): string {
    if parts == [] then ""
    else if |parts| == 1 then parts[0]
    else parts[0] + [sep] + Join(parts[1..], sep)
  }

  predicate Free(s: string, sep: char) {
    forall i :: 0 <= i < |s| ==> s[i] != sep
  }

  /** Splitting loses nothing and leaves no separator inside a part. */
  lemma {:induction false} JoinSplit(s: string, sep: char)
    ensures Join(Split(s, sep), sep) == s
    ensures forall part :: part in Split(s, sep) ==> Free(part, sep)
  {
    if s != "" {
      JoinSplit(s[1..], sep);
      var rest := Split(s[1..], sep);
      assert s == [s[0]] + s[1..];
      if s[0] == sep {
        assert Split(s, sep)[1..] == rest;
      } else {
        assert Split(s, sep) == [[s[0]] + rest[0]] + rest[1..];
        assert rest[0] in rest && Free([s[0]] + rest[0], sep);
      }
    }
  }

  /** Parts without separators are recovered from their join. */
  lemma {:induction false} SplitJoin(parts: seq<string>, sep: char)
    requires parts != [] && forall part :: part in parts ==> Free(part, sep)
    ensures Split(Join(parts, sep), sep) == parts
  {
    if |parts| == 1 {
      SplitFree(parts[0], sep);
    } else {
      SplitJoin(parts[1..], sep);
      SplitAfterFree(parts[0], sep, Join(parts[1..], sep));
    }
  }

  lemma {:induction false} SplitFree(s: string, sep: char)
    requires Free(s, sep)
    ensures Split(s, sep) == [s]
  {
    if s != "" {
      SplitFree(s[1..], sep);
      assert s == [s[0]] + s[1..];
    }
  }

  lemma {:induction false} SplitAfterFree(s: string, sep: char, rest: string)
    requires Free(s, sep)
    ensures Split(s + [sep] + rest, sep) == [s] + Split(rest, sep)
  {
    if s == "" {
      assert s + [sep] + rest == [sep] + rest;
    } else {
      SplitAfterFree(s[1..], sep, rest);
      assert s == [s[0]] + s[1..];
      assert (s + [sep] + rest)[1..] == s[1..] + [sep] + rest;
    }
  }

  lemma {:induction false} JoinFree(parts: seq<string>, sep: char, c: char)
    requires c != sep && forall part :: part in parts ==> Free(part, c)
    ensures Free(Join(parts, sep), c)
  {
    if |parts| > 1 {
      assert Free(parts[0], c);
      JoinFree(parts[1..], sep, c);
    }
  }

  // ---------------------------------------------------------- validation

  predicate Between(c: char, lo: int, hi: int) {
    lo <= c as int <= hi
  }

  predicate Continuation(s: string, i: nat) {
    i < |s| && Between(s[i], 0x80, 0xBF)
  }

  /** The length of the well-formed UTF-8 sequence at the head, or zero. */
  function RuneLength(s: string): nat
    requires s != ""
  {
    var c := s[0];
    if Between(c, 0, 0x7F) then 1
    else if Between(c, 0xC2, 0xDF) && Continuation(s, 1) then 2
    else if Between(c, 0xE0, 0xEF) && Continuation(s, 1) && Continuation(s, 2)
         && !(c as int == 0xE0 && Between(s[1], 0x80, 0x9F)) && !(c as int == 0xED && Between(s[1], 0xA0, 0xBF)) then 3
    else if Between(c, 0xF0, 0xF4) && Continuation(s, 1) && Continuation(s, 2) && Continuation(s, 3)
         && !(c as int == 0xF0 && Between(s[1], 0x80, 0x8F)) && !(c as int == 0xF4 && Between(s[1], 0x90, 0xBF)) then 4
    else 0
  }

  /** A control character at the head, in either control block. */
  predicate ControlAtHead(s: string)
    requires s != ""
  {
    Between(s[0], 0, 0x1F) || s[0] as int == 0x7F || (s[0] as int == 0xC2 && |s| > 1 && Between(s[1], 0x80, 0x9F))
  }

  predicate PlainRunes(s: string) {
    s != "" ==> 0 < RuneLength(s) <= |s| && !ControlAtHead(s) && PlainRunes(s[RuneLength(s)..])
  }

  predicate TreeText(s: string) {
    s != "" && PlainRunes(s) && '\\' !in s
  }

  /** A component a path may have. */
  predicate ValidComponent(c: string) {
    c != "" && c != "." && c != ".." && |c| <= TREE_COMPONENT_BYTES
  }

  predicate ValidTreePath(s: string, mount: nat) {
    || s == "."
    || (&& TreeText(s) && s[0] != SLASH
        && |Split(s, SLASH)| <= TREE_DEPTH
        && (forall c :: c in Split(s, SLASH) ==> ValidComponent(c))
        && mount + 1 + |s| + 1 <= TREE_PATH_BYTES)
  }

  predicate ValidTreeLink(s: string) {
    && TreeText(s) && |s| <= TREE_LINK_BYTES && s[0] != SLASH
    && (forall c :: c in Split(s, SLASH) ==> c != "" && |c| <= TREE_COMPONENT_BYTES)
  }

  // --------------------------------------- admitted text is encoded text

  predicate Scalar(r: int) {
    0 <= r < 0xD800 || 0xE000 <= r < 0x11_0000
  }

  /** The control characters of both control blocks. */
  predicate Control(r: int) {
    0 <= r < 0x20 || 0x7F <= r < 0xA0
  }

  /** The UTF-8 bytes of a scalar value. */
  function Encode(r: int): string
    requires Scalar(r)
  {
    if r < 0x80 then [r as char]
    else if r < 0x800 then [(0xC0 + r / 64) as char, (0x80 + r % 64) as char]
    else if r < 0x1_0000 then [(0xE0 + r / 4096) as char, (0x80 + r / 64 % 64) as char, (0x80 + r % 64) as char]
    else [(0xF0 + r / 262144) as char, (0x80 + r / 4096 % 64) as char, (0x80 + r / 64 % 64) as char, (0x80 + r % 64) as char]
  }

  predicate AllPlain(runes: seq<int>) {
    forall r :: r in runes ==> Scalar(r) && !Control(r)
  }

  function EncodeAll(runes: seq<int>): string
    requires AllPlain(runes)
  {
    if runes == [] then "" else Encode(runes[0]) + EncodeAll(runes[1..])
  }

  lemma EncodedHead(r: int, rest: string)
    requires Scalar(r)
    ensures var s := Encode(r) + rest; RuneLength(s) == |Encode(r)| && (ControlAtHead(s) <==> Control(r))
  {
    var e, s := Encode(r), Encode(r) + rest;
    assert forall i :: 0 <= i < |e| ==> s[i] == e[i];
    if 0x800 <= r < 0x1_0000 {
      EncodedThree(r, s);
    } else if r >= 0x1_0000 {
      EncodedFour(r, s);
    }
  }

  lemma EncodedThree(r: int, s: string)
    requires Scalar(r) && 0x800 <= r < 0x1_0000 && |s| >= 3
    requires s[0] == Encode(r)[0] && s[1] == Encode(r)[1] && s[2] == Encode(r)[2]
    ensures RuneLength(s) == 3 && !ControlAtHead(s)
  {
  }

  lemma EncodedFour(r: int, s: string)
    requires Scalar(r) && r >= 0x1_0000 && |s| >= 4
    requires s[0] == Encode(r)[0] && s[1] == Encode(r)[1] && s[2] == Encode(r)[2] && s[3] == Encode(r)[3]
    ensures RuneLength(s) == 4 && !ControlAtHead(s)
  {
  }

  lemma TwoBytes(a: int, b: int) returns (r: int)
    requires 0xC2 <= a <= 0xDF && 0x80 <= b <= 0xBF
    ensures 0x80 <= r < 0x800 && Encode(r) == [a as char, b as char]
  {
    r := (a - 0xC0) * 64 + (b - 0x80);
    assert r / 64 == a - 0xC0 && r % 64 == b - 0x80;
  }

  lemma ThreeBytes(a: int, b: int, c: int) returns (r: int)
    requires 0xE0 <= a <= 0xEF && 0x80 <= b <= 0xBF && 0x80 <= c <= 0xBF
    requires !(a == 0xE0 && b <= 0x9F) && !(a == 0xED && b >= 0xA0)
    ensures 0x800 <= r < 0x1_0000 && Scalar(r) && Encode(r) == [a as char, b as char, c as char]
  {
    var high := (a - 0xE0) * 64 + (b - 0x80);
    r := high * 64 + (c - 0x80);
    assert r / 64 == high && r % 64 == c - 0x80;
    assert high / 64 == a - 0xE0 && high % 64 == b - 0x80 && r / 4096 == high / 64;
  }

  lemma FourBytes(a: int, b: int, c: int, d: int) returns (r: int)
    requires 0xF0 <= a <= 0xF4 && 0x80 <= b <= 0xBF && 0x80 <= c <= 0xBF && 0x80 <= d <= 0xBF
    requires !(a == 0xF0 && b <= 0x8F) && !(a == 0xF4 && b >= 0x90)
    ensures 0x1_0000 <= r < 0x11_0000 && Encode(r) == [a as char, b as char, c as char, d as char]
  {
    var top := (a - 0xF0) * 64 + (b - 0x80);
    var high := top * 64 + (c - 0x80);
    r := high * 64 + (d - 0x80);
    assert r / 64 == high && r % 64 == d - 0x80;
    assert high / 64 == top && high % 64 == c - 0x80 && r / 4096 == high / 64;
    assert top / 64 == a - 0xF0 && top % 64 == b - 0x80 && r / 262144 == top / 64;
  }

  lemma DecodedHead(s: string) returns (r: int)
    requires s != "" && RuneLength(s) > 0
    ensures RuneLength(s) <= |s| && Scalar(r) && Encode(r) == s[..RuneLength(s)]
  {
    match RuneLength(s)
    case 1 => r := s[0] as int;
    case 2 => r := TwoBytes(s[0] as int, s[1] as int);
    case 3 => r := ThreeBytes(s[0] as int, s[1] as int, s[2] as int);
    case _ => r := FourBytes(s[0] as int, s[1] as int, s[2] as int, s[3] as int);
  }

  lemma {:induction false} EncodedIsPlain(runes: seq<int>)
    requires AllPlain(runes)
    ensures PlainRunes(EncodeAll(runes))
  {
    if runes != [] {
      EncodedIsPlain(runes[1..]);
      EncodedHead(runes[0], EncodeAll(runes[1..]));
      var s := EncodeAll(runes);
      assert s[|Encode(runes[0])|..] == EncodeAll(runes[1..]);
    }
  }

  lemma {:induction false} PlainIsEncoded(s: string) returns (runes: seq<int>)
    requires PlainRunes(s)
    ensures AllPlain(runes) && EncodeAll(runes) == s
    decreases |s|
  {
    if s == "" {
      runes := [];
    } else {
      var n := RuneLength(s);
      var r := DecodedHead(s);
      assert s == Encode(r) + s[n..];
      EncodedHead(r, s[n..]);
      var rest := PlainIsEncoded(s[n..]);
      runes := [r] + rest;
    }
  }

  ghost predicate Encodes(runes: seq<int>, s: string) {
    AllPlain(runes) && EncodeAll(runes) == s
  }

  /** The text check admits exactly the non-empty UTF-8 encodings of scalar values
      that are no control characters, without a backslash. */
  lemma TreeTextExactly(s: string)
    ensures TreeText(s) <==> s != "" && '\\' !in s && exists runes :: Encodes(runes, s)
  {
    if PlainRunes(s) {
      var runes := PlainIsEncoded(s);
      assert Encodes(runes, s);
    }
    if runes :| Encodes(runes, s) {
      EncodedIsPlain(runes);
    }
  }

  /** Printable ASCII other than the backslash. */
  predicate Printable(s: string) {
    forall i :: 0 <= i < |s| ==> Between(s[i], 0x20, 0x7E) && s[i] != '\\'
  }

  lemma {:induction false} PrintableIsPlain(s: string)
    requires Printable(s)
    ensures PlainRunes(s) && '\\' !in s
  {
    if s != "" {
      assert RuneLength(s) == 1;
      PrintableIsPlain(s[1..]);
    }
  }

  lemma {:induction false} JoinIsPrintable(parts: seq<string>)
    requires forall part :: part in parts ==> Printable(part)
    ensures Printable(Join(parts, SLASH))
  {
    if |parts| > 1 {
      assert Printable(parts[0]);
      JoinIsPrintable(parts[1..]);
    }
  }

  /** A path of printable components is valid exactly when it is the root, or has
      at most 128 components, each of 1 to 255 bytes and neither a dot nor a
      dot-dot, and fits under its mount in a path's bytes. */
  lemma PrintablePathExactly(parts: seq<string>, mount: nat)
    requires parts != [] && forall part :: part in parts ==> Printable(part) && Free(part, SLASH)
    ensures var path := Join(parts, SLASH);
            ValidTreePath(path, mount) <==>
              || parts == ["."]
              || (&& |parts| <= 128 && (forall c :: c in parts ==> 0 < |c| <= 255 && c != "." && c != "..")
                  && mount + |path| + 2 <= 4096)
  {
    SplitJoin(parts, SLASH);
    JoinIsPrintable(parts);
    PrintableIsPlain(Join(parts, SLASH));
    SplitFree(".", SLASH);
    if parts[0] != "" {
      assert parts[0] in parts && Join(parts, SLASH)[0] == parts[0][0];
    }
  }

  /** A link target of printable components is valid exactly when each has 1 to 255
      bytes and they fit 4095 bytes together. */
  lemma PrintableLinkExactly(parts: seq<string>)
    requires parts != [] && forall part :: part in parts ==> Printable(part) && Free(part, SLASH)
    ensures ValidTreeLink(Join(parts, SLASH)) <==>
      |Join(parts, SLASH)| <= 4095 && forall c :: c in parts ==> 0 < |c| <= 255
  {
    SplitJoin(parts, SLASH);
    JoinIsPrintable(parts);
    PrintableIsPlain(Join(parts, SLASH));
    if parts[0] != "" {
      assert parts[0] in parts && Join(parts, SLASH)[0] == parts[0][0];
    }
  }

  /** Admitted text has no NUL byte. */
  lemma {:induction false} PlainHasNoNul(s: string)
    requires PlainRunes(s)
    ensures Free(s, NUL)
    decreases |s|
  {
    if s != "" {
      var n := RuneLength(s);
      PlainHasNoNul(s[n..]);
      assert s == s[..n] + s[n..];
      assert forall i :: 0 <= i < n ==> s[i] != NUL;
    }
  }

  /** What the walk relies on of every pending component. */
  predicate Clean(c: string) {
    c != "" && Free(c, SLASH) && Free(c, NUL)
  }

  predicate AllClean(parts: seq<string>) {
    forall c :: c in parts ==> Clean(c)
  }

  lemma SplitIsClean(s: string)
    requires PlainRunes(s) && forall c :: c in Split(s, SLASH) ==> c != ""
    ensures AllClean(Split(s, SLASH))
  {
    JoinSplit(s, SLASH);
    PlainHasNoNul(s);
    SplitFreeOf(s, NUL);
  }

  lemma {:induction false} SplitFreeOf(s: string, c: char)
    requires Free(s, c)
    ensures forall part :: part in Split(s, SLASH) ==> Free(part, c)
  {
    if s != "" {
      SplitFreeOf(s[1..], c);
      var rest := Split(s[1..], SLASH);
      assert rest[0] in rest && Free([s[0]] + rest[0], c);
    }
  }

  // -------------------------------------------------------------- parents

  /** The parent of a validated path. */
  function Dir(s: string): string {
    var parts := Split(s, SLASH);
    if |parts| == 1 then "." else Join(parts[..|parts| - 1], SLASH)
  }

  lemma ParentOfJoin(parts: seq<string>)
    requires |parts| > 1 && forall c :: c in parts ==> Free(c, SLASH)
    ensures Join(parts, SLASH) != "."
    ensures Dir(Join(parts, SLASH)) == Join(parts[..|parts| - 1], SLASH)
  {
    var path := Join(parts, SLASH);
    SplitJoin(parts, SLASH);
    if path == "." {
      SplitFree(path, SLASH);
    }
  }
}
