/** Asset paths as pure algebra: what a path means, its normal form, and what a reference named inside a
    document resolves to. Paths are read the way a Unix host reads them. */
module AssetPaths {
  import opened Text
  import opened Wrappers

  // ----- Paths -----

  /** A path as a list of components; `.` and empty components never show. */
  datatype Path = Path(absolute: bool, segments: seq<string>)

  const PARENT: string := ".."

  predicate Skipped(segment: string) {
    segment == "" || segment == "."
  }

  function Named(parts: seq<string>): (r: seq<string>)
    ensures forall i :: 0 <= i < |r| ==> r[i] in parts && !Skipped(r[i])
  {
    if parts == [] then []
    else (if Skipped(parts[0]) then [] else [parts[0]]) + Named(parts[1..])
  }

  /** A segment as the component parser leaves it. */
  predicate IsSegment(s: string) {
    s != "" && s != "." && '/' !in s
  }

  ghost predicate WellFormed(segments: seq<string>) {
    forall i :: 0 <= i < |segments| ==> IsSegment(segments[i])
  }

  function Parse(s: string): (p: Path)
    ensures WellFormed(p.segments)
  {
    Path(s != [] && s[0] == '/', Named(Split(s, '/')))
  }

  function Join(segments: seq<string>): string {
    if segments == [] then ""
    else if |segments| == 1 then segments[0]
    else segments[0] + "/" + Join(segments[1..])
  }

  function Render(p: Path): string {
    (if p.absolute then "/" else "") + Join(p.segments)
  }

  lemma {:induction false} NamedKeepsAll(segments: seq<string>)
    requires WellFormed(segments)
    ensures Named(segments) == segments
  {
    if segments != [] {
      NamedKeepsAll(segments[1..]);
    }
  }

  lemma {:induction false} SplitJoin(segments: seq<string>)
    requires segments != [] && WellFormed(segments)
    ensures Split(Join(segments), '/') == segments
    decreases |segments|
  {
    if |segments| == 1 {
      SplitWithout(segments[0], '/');
    } else {
      SplitJoin(segments[1..]);
      SplitAt(segments[0], '/', Join(segments[1..]));
      assert segments[0] + "/" + Join(segments[1..]) == segments[0] + ['/'] + Join(segments[1..]);
    }
  }

  lemma NamedSkips(parts: seq<string>)
    ensures Named([""] + parts) == Named(parts)
  {
    assert ([""] + parts)[1..] == parts;
  }

  lemma SplitAfterSlash(s: string)
    ensures Split("/" + s, '/') == [""] + Split(s, '/')
  {
    SplitAt("", '/', s);
    assert "" + ['/'] + s == "/" + s;
  }

  /** Writing a path and reading it again changes nothing. */
  lemma ParseRender(p: Path)
    requires WellFormed(p.segments)
    ensures Parse(Render(p)) == p
  {
    hide Split, Named, Join;
    var body := Join(p.segments);
    assert Named(Split(body, '/')) == p.segments by { NamedJoin(p.segments); }
    if p.absolute {
      SplitAfterSlash(body);
      NamedSkips(Split(body, '/'));
    } else {
      JoinStarts(p.segments);
      assert Render(p) == body;
    }
  }

  lemma JoinStarts(segments: seq<string>)
    requires WellFormed(segments)
    ensures segments != [] ==> Join(segments) != [] && Join(segments)[0] == segments[0][0]
    ensures segments == [] ==> Join(segments) == ""
    ensures Join(segments) != [] ==> Join(segments)[0] != '/'
  {
    if segments != [] {
      assert segments[0][0] in segments[0];
    }
  }

  lemma NamedJoin(segments: seq<string>)
    requires WellFormed(segments)
    ensures Named(Split(Join(segments), '/')) == segments
  {
    if segments == [] {
      assert Split("", '/') == [""];
      NamedSkips([]);
      assert [""] + [] == [""];
    } else {
      SplitJoin(segments);
      NamedKeepsAll(segments);
    }
  }

  // ----- Normal form -----

  /** One component onto a normalised prefix: `..` undoes a name, and is kept where there is none. */
  function Pushed(out: seq<string>, segment: string): seq<string> {
    if segment != PARENT then out + [segment]
    else if out != [] && out[|out| - 1] != PARENT then out[..|out| - 1]
    else out + [PARENT]
  }

  function NormalSegments(segments: seq<string>): seq<string> {
    if segments == [] then [] else Pushed(NormalSegments(segments[..|segments| - 1]), segments[|segments| - 1])
  }

  function Normalize(p: Path): Path {
    Path(p.absolute, NormalSegments(p.segments))
  }

  /** The loop over the components, pushing and popping. */
  method NormalizeLoop(p: Path) returns (out: Path)
    ensures out == Normalize(p)
  {
    var segments: seq<string> := [];
    for i := 0 to |p.segments|
      invariant segments == NormalSegments(p.segments[..i])
    {
      assert p.segments[..i + 1][..i] == p.segments[..i];
      if p.segments[i] == PARENT {
        if segments != [] && segments[|segments| - 1] != PARENT {
          segments := segments[..|segments| - 1];
        } else {
          segments := segments + [PARENT];
        }
      } else {
        segments := segments + [p.segments[i]];
      }
    }
    assert p.segments[..|p.segments|] == p.segments;
    out := Path(p.absolute, segments);
  }

  /** `..` stands only in front of every name. */
  ghost predicate Reduced(segments: seq<string>) {
    forall i, j :: 0 <= i < j < |segments| && segments[j] == PARENT ==> segments[i] == PARENT
  }

  lemma {:induction false} NormalIsReduced(segments: seq<string>)
    ensures Reduced(NormalSegments(segments))
    ensures WellFormed(segments) ==> WellFormed(NormalSegments(segments))
  {
    if segments != [] {
      NormalIsReduced(segments[..|segments| - 1]);
    }
  }

  lemma {:induction false} ReducedIsNormal(segments: seq<string>)
    requires Reduced(segments)
    ensures NormalSegments(segments) == segments
  {
    if segments != [] {
      var n := |segments| - 1;
      ReducedIsNormal(segments[..n]);
      assert segments == segments[..n] + [segments[n]];
      assert n > 0 && segments[n] == PARENT ==> segments[..n][n - 1] == PARENT;
    }
  }

  /** A path is its own normal form exactly when every `..` is unmatched; so normalising twice is
      normalising once. */
  lemma NormalIff(p: Path)
    ensures Normalize(p) == p <==> Reduced(p.segments)
    ensures Normalize(Normalize(p)) == Normalize(p)
  {
    NormalIsReduced(p.segments);
    ReducedIsNormal(NormalSegments(p.segments));
    if Reduced(p.segments) {
      ReducedIsNormal(p.segments);
    }
  }

  // ----- Directories -----

  /** A directory tree without links: entering a directory and going up again leads back. */
  datatype Tree<!D(!new)> = Tree(up: D -> D, enter: (D, string) -> D) {
    ghost predicate Lawful() {
      forall d, name :: name != PARENT ==> up(enter(d, name)) == d
    }
  }

  function Walk<D(!new)>(t: Tree<D>, d: D, segments: seq<string>): D {
    if segments == [] then d
    else
      var before := Walk(t, d, segments[..|segments| - 1]);
      var last := segments[|segments| - 1];
      if last == PARENT then t.up(before) else t.enter(before, last)
  }

  /** The normal form leads to the same directory, from every directory of every tree. */
  lemma {:induction false} NormalWalksAlike<D(!new)>(t: Tree<D>, d: D, segments: seq<string>)
    requires t.Lawful()
    ensures Walk(t, d, NormalSegments(segments)) == Walk(t, d, segments)
  {
    if segments != [] {
      var n := |segments| - 1;
      NormalWalksAlike(t, d, segments[..n]);
      var out := NormalSegments(segments[..n]);
      if segments[n] == PARENT && out != [] && out[|out| - 1] != PARENT {
        assert Walk(t, d, out) == t.enter(Walk(t, d, out[..|out| - 1]), out[|out| - 1]);
      } else {
        var pushed := Pushed(out, segments[n]);
        assert pushed[..|pushed| - 1] == out;
      }
    }
  }

  /** The tree whose directories are normal forms. */
  function Forms(): Tree<seq<string>> {
    Tree(d => Pushed(d, PARENT), (d, name) => Pushed(d, name))
  }

  lemma {:induction false} FormsWalk(segments: seq<string>)
    ensures Forms().Lawful() && Walk(Forms(), [], segments) == NormalSegments(segments)
  {
    if segments != [] {
      FormsWalk(segments[..|segments| - 1]);
    } else {
      forall d: seq<string>, name | name != PARENT ensures Pushed(Pushed(d, name), PARENT) == d {
        assert (d + [name])[..|d|] == d;
      }
    }
  }

  /** Two spellings have one normal form exactly when they lead to the same place in every tree. */
  lemma SameFormIff(a: seq<string>, b: seq<string>)
    ensures NormalSegments(a) == NormalSegments(b) <==>
            forall t: Tree<seq<string>>, d :: t.Lawful() ==> Walk(t, d, a) == Walk(t, d, b)
  {
    if NormalSegments(a) == NormalSegments(b) {
      forall t: Tree<seq<string>>, d | t.Lawful() ensures Walk(t, d, a) == Walk(t, d, b) {
        NormalWalksAlike(t, d, a);
        NormalWalksAlike(t, d, b);
      }
    }
    FormsWalk(a);
    FormsWalk(b);
  }

  // ----- References -----

  function Slashed(s: string): (r: string)
    ensures |r| == |s| && forall i :: 0 <= i < |s| ==> r[i] == if s[i] == '\\' then '/' else s[i]
  {
    seq(|s|, i requires 0 <= i < |s| => if s[i] == '\\' then '/' else s[i])
  }

  const SCHEME_MARK: string := "://"

  predicate MarkAt(s: string, i: nat) {
    i + 3 <= |s| && s[i] == ':' && s[i + 1] == '/' && s[i + 2] == '/'
  }

  /** The first `://` at or after `from`. */
  function FindMark(s: string, from: nat): (r: Option<nat>)
    ensures r.Some? ==> from <= r.value && MarkAt(s, r.value) && forall i :: from <= i < r.value ==> !MarkAt(s, i)
    ensures r.None? ==> forall i :: from <= i ==> !MarkAt(s, i)
    decreases |s| - from
  {
    if from + 3 > |s| then None else if MarkAt(s, from) then Some(from) else FindMark(s, from + 1)
  }

  function SplitScheme(reference: string): Option<(string, string)> {
    match FindMark(reference, 0)
    case Some(i) => Some((reference[..i], reference[i + 3..]))
    case None => None
  }

  function Uri(scheme: string, rel: string): string {
    scheme + SCHEME_MARK + rel
  }

  predicate HasScheme(reference: string) {
    SplitScheme(reference).Some?
  }

  predicate IsAnchored(reference: string) {
    HasScheme(reference) || (reference != [] && reference[0] == '/')
  }

  function CanonicalizeRoot(reference: string): string {
    var s := Slashed(reference);
    if HasScheme(s) then s
    else Render(Normalize(Parse(if s != [] && s[0] == '/' then s[1..] else s)))
  }

  /** The directory a document is in. */
  function Parent(p: Path): Path {
    if p.segments == [] then Path(false, []) else Path(p.absolute, p.segments[..|p.segments| - 1])
  }

  /** `base.join(reference)` for a reference that is not absolute. */
  function Joined(base: Path, reference: string): Path {
    Path(base.absolute, base.segments + Parse(reference).segments)
  }

  function Canonicalize(reference: string, anchor: string): string {
    var s := Slashed(reference);
    if IsAnchored(s) then CanonicalizeRoot(s)
    else
      match SplitScheme(anchor)
      case Some((scheme, path)) => Uri(scheme, Render(Normalize(Joined(Parent(Parse(Slashed(path))), s))))
      case None => Render(Normalize(Joined(Parent(Parse(Slashed(anchor))), s)))
  }

  // ----- What resolution keeps -----

  lemma SlashedTwice(s: string)
    ensures Slashed(Slashed(s)) == Slashed(s)
    ensures '\\' !in s ==> Slashed(s) == s
    ensures '\\' !in Slashed(s)
  {
  }

  lemma MarkInPrefix(scheme: string, rel: string)
    requires forall i :: 0 <= i < |scheme| ==> !MarkAt(scheme + SCHEME_MARK, i)
    ensures SplitScheme(Uri(scheme, rel)) == Some((scheme, rel))
  {
    var u := Uri(scheme, rel);
    assert MarkAt(u, |scheme|);
    forall i | 0 <= i < |scheme| ensures !MarkAt(u, i) {
      assert i + 3 <= |scheme + SCHEME_MARK|;
      assert !MarkAt(scheme + SCHEME_MARK, i);
      assert forall k :: 0 <= k < |scheme| + 3 ==> u[k] == (scheme + SCHEME_MARK)[k];
    }
    assert u[..|scheme|] == scheme && u[|scheme| + 3..] == rel;
  }

  /** A scheme that was split off holds no earlier mark, so it can be put in front of anything. */
  lemma SplitIsFirst(reference: string, rel: string)
    requires HasScheme(reference)
    ensures SplitScheme(Uri(SplitScheme(reference).value.0, rel)) == Some((SplitScheme(reference).value.0, rel))
  {
    var scheme := SplitScheme(reference).value.0;
    forall i | 0 <= i < |scheme| ensures !MarkAt(scheme + SCHEME_MARK, i) {
      assert !MarkAt(reference, i);
      assert forall k :: 0 <= k < |scheme| + 3 ==> (scheme + SCHEME_MARK)[k] == reference[k];
    }
    MarkInPrefix(scheme, rel);
  }

  /** A reference that is anchored means the same whatever document names it. */
  lemma AnchoredIgnoresAnchor(reference: string, anchor: string, other: string)
    requires IsAnchored(Slashed(reference))
    ensures Canonicalize(reference, anchor) == Canonicalize(reference, other) == CanonicalizeRoot(reference)
  {
    SlashedTwice(reference);
  }

  lemma {:induction false} WalkConcat<D(!new)>(t: Tree<D>, d: D, a: seq<string>, b: seq<string>)
    ensures Walk(t, d, a + b) == Walk(t, Walk(t, d, a), b)
    decreases |b|
  {
    if b == [] {
      assert a + b == a;
    } else {
      var n := |b| - 1;
      assert (a + b)[..|a + b| - 1] == a + b[..n];
      WalkConcat(t, d, a, b[..n]);
    }
  }

  predicate NoDoubleSlash(s: string) {
    forall i :: 0 <= i < |s| - 1 ==> !(s[i] == '/' && s[i + 1] == '/')
  }

  lemma NoMark(s: string)
    requires NoDoubleSlash(s)
    ensures !HasScheme(s)
  {
    forall i: nat ensures !MarkAt(s, i) {
      assert i + 3 <= |s| ==> !(s[i + 1] == '/' && s[i + 1 + 1] == '/');
    }
  }

  lemma {:induction false} JoinHasNoDoubleSlash(segments: seq<string>)
    requires WellFormed(segments)
    ensures NoDoubleSlash(Join(segments))
    decreases |segments|
  {
    JoinStarts(segments);
    if |segments| == 1 {
    } else if segments != [] {
      var head, rest := segments[0], Join(segments[1..]);
      JoinHasNoDoubleSlash(segments[1..]);
      JoinStarts(segments[1..]);
      var s := head + "/" + rest;
      forall i | 0 <= i < |s| - 1 ensures !(s[i] == '/' && s[i + 1] == '/') {
        if i < |head| {
          assert s[i] == head[i] && head[i] in head;
        } else if i == |head| {
          assert s[i + 1] == rest[0];
        } else {
          assert s[i] == rest[i - |head| - 1] && s[i + 1] == rest[i - |head|];
        }
      }
    }
  }

  /** A written path is never mistaken for a reference with a scheme, and starts with a slash exactly when
      it is absolute. */
  lemma RenderedIsBare(p: Path)
    requires WellFormed(p.segments)
    ensures !HasScheme(Render(p))
    ensures (Render(p) != [] && Render(p)[0] == '/') <==> p.absolute
  {
    hide Join, HasScheme;
    JoinHasNoDoubleSlash(p.segments);
    JoinStarts(p.segments);
    var s, body := Render(p), Join(p.segments);
    if p.absolute {
      forall i | 0 <= i < |s| - 1 ensures !(s[i] == '/' && s[i + 1] == '/') {
        assert s[i + 1] == body[i] && (i > 0 ==> s[i] == body[i - 1]);
        assert i > 0 ==> !(body[i - 1] == '/' && body[i - 1 + 1] == '/');
      }
    } else {
      assert s == body;
    }
    NoMark(s);
  }

  lemma SlashedStays(p: Path)
    requires forall i :: 0 <= i < |p.segments| ==> '\\' !in p.segments[i]
    ensures '\\' !in Render(p)
  {
    JoinKeepsOut(p.segments);
  }

  lemma {:induction false} JoinKeepsOut(segments: seq<string>)
    requires forall i :: 0 <= i < |segments| ==> '\\' !in segments[i]
    ensures '\\' !in Join(segments)
    decreases |segments|
  {
    if |segments| > 1 {
      JoinKeepsOut(segments[1..]);
    }
  }

  lemma {:induction false} SplitKeepsOut(s: string)
    requires '\\' !in s
    ensures forall i :: 0 <= i < |Split(s, '/')| ==> '\\' !in Split(s, '/')[i]
  {
    if s != [] {
      SplitKeepsOut(s[1..]);
    }
  }

  lemma {:induction false} NormalKeepsOut(segments: seq<string>)
    requires forall i :: 0 <= i < |segments| ==> '\\' !in segments[i]
    ensures forall i :: 0 <= i < |NormalSegments(segments)| ==> '\\' !in NormalSegments(segments)[i]
  {
    if segments != [] {
      NormalKeepsOut(segments[..|segments| - 1]);
    }
  }

  lemma ParsedIsSlashed(s: string)
    requires '\\' !in s
    ensures forall i :: 0 <= i < |Parse(s).segments| ==> '\\' !in Parse(s).segments[i]
  {
    SplitKeepsOut(s);
  }

  lemma ResolvedIsSlashed(base: string, s: string)
    ensures '\\' !in Render(Normalize(Joined(Parent(Parse(Slashed(base))), Slashed(s))))
  {
    SlashedTwice(base);
    SlashedTwice(s);
    ParsedIsSlashed(Slashed(base));
    ParsedIsSlashed(Slashed(s));
    var joined := Joined(Parent(Parse(Slashed(base))), Slashed(s));
    NormalKeepsOut(joined.segments);
    SlashedStays(Normalize(joined));
  }

  /** What a scheme's document resolves a relative reference to is already canonical: resolving it again,
      inside any document, is the identity, as long as the scheme itself is free of backslashes. */
  lemma SchemedIsCanonicalIff(reference: string, anchor: string, other: string)
    requires !IsAnchored(Slashed(reference)) && HasScheme(anchor)
    ensures Canonicalize(Canonicalize(reference, anchor), other) == Canonicalize(reference, anchor)
       <==> '\\' !in SplitScheme(anchor).value.0
  {
    var (scheme, path) := SplitScheme(anchor).value;
    var rel := Render(Normalize(Joined(Parent(Parse(Slashed(path))), Slashed(reference))));
    var canonical := Uri(scheme, rel);
    ResolvedIsSlashed(path, reference);
    SplitIsFirst(anchor, rel);
    SlashedTwice(canonical);
    SlashedKeepsMark(scheme, rel);
    if '\\' !in scheme {
      assert '\\' !in canonical;
      assert Slashed(canonical) == canonical;
    } else {
      var i :| 0 <= i < |scheme| && scheme[i] == '\\';
      assert canonical[i] == '\\' && Slashed(canonical)[i] == '/';
    }
  }

  lemma SlashedKeepsMark(scheme: string, rel: string)
    ensures HasScheme(Slashed(Uri(scheme, rel)))
    ensures CanonicalizeRoot(Uri(scheme, rel)) == Slashed(Uri(scheme, rel)) == CanonicalizeRoot(Slashed(Uri(scheme, rel)))
  {
    var u := Uri(scheme, rel);
    assert MarkAt(u, |scheme|);
    assert MarkAt(Slashed(u), |scheme|);
    SlashedTwice(u);
  }

  /** What a bare root reference is read as. */
  function RootPath(reference: string): Path {
    var s := Slashed(reference);
    Normalize(Parse(if s != [] && s[0] == '/' then s[1..] else s))
  }

  predicate DoublySlashed(reference: string) {
    var s := Slashed(reference);
    |s| >= 2 && s[0] == '/' && s[1] == '/'
  }

  lemma RootPathIsPlain(reference: string)
    ensures var p := RootPath(reference);
      WellFormed(p.segments) && Reduced(p.segments) && (p.absolute <==> DoublySlashed(reference))
      && forall i :: 0 <= i < |p.segments| ==> '\\' !in p.segments[i]
  {
    var s := Slashed(reference);
    var rel := if s != [] && s[0] == '/' then s[1..] else s;
    SlashedTwice(reference);
    NormalIsReduced(Parse(rel).segments);
    ParsedIsSlashed(rel);
    NormalKeepsOut(Parse(rel).segments);
  }

  /** A plain path, written and named as a root again, loses the slash it started with. */
  lemma RootOfRendered(p: Path)
    requires WellFormed(p.segments) && Reduced(p.segments)
    requires forall i :: 0 <= i < |p.segments| ==> '\\' !in p.segments[i]
    ensures CanonicalizeRoot(Render(p)) == Render(Path(false, p.segments))
  {
    hide Parse, Reduced, WellFormed, HasScheme;
    var out, q := Render(p), Path(false, p.segments);
    SlashedStays(p);
    SlashedTwice(out);
    RenderedIsBare(p);
    ParseRender(q);
    NormalIff(q);
    if p.absolute {
      assert out[1..] == Render(q);
    } else {
      assert out == Render(q);
    }
  }

  /** Naming a root twice is naming it once, except for a bare reference that starts with two slashes:
      only one of them is taken for the assets root, and the next round takes the other. */
  lemma RootIsCanonicalIff(reference: string)
    ensures CanonicalizeRoot(CanonicalizeRoot(reference)) == CanonicalizeRoot(reference)
       <==> HasScheme(Slashed(reference)) || !DoublySlashed(reference)
  {
    hide Parse, Reduced, WellFormed, HasScheme, Normalize, DoublySlashed;
    SlashedTwice(reference);
    if !HasScheme(Slashed(reference)) {
      var p := RootPath(reference);
      assert CanonicalizeRoot(reference) == Render(p);
      RootPathIsPlain(reference);
      RootOfRendered(p);
      assert |Render(p)| == |Render(Path(false, p.segments))| + if p.absolute then 1 else 0;
    }
  }

  // ----- Relative paths that stay inside a root -----

  predicate Portable(segment: string) {
    ':' !in segment && '\0' !in segment
  }

  function RelativeSegments(parts: seq<string>): Option<seq<string>> {
    if parts == [] then Some([])
    else
      var last := parts[|parts| - 1];
      match RelativeSegments(parts[..|parts| - 1])
      case None => None
      case Some(before) =>
        if Skipped(last) then Some(before)
        else if last == PARENT || !Portable(last) then None
        else Some(before + [last])
  }

  function RelativePath(reference: string): Option<Path> {
    var s := Slashed(reference);
    if s == [] || s[0] == '/' || (|s| > 1 && s[1] == ':') then None
    else
      match RelativeSegments(Split(s, '/'))
      case Some(segments) => if segments == [] then None else Some(Path(false, segments))
      case None => None
  }

  method RelativePathLoop(reference: string) returns (r: Option<Path>)
    ensures r == RelativePath(reference)
  {
    var s := Slashed(reference);
    if s == [] || s[0] == '/' || (|s| > 1 && s[1] == ':') {
      return None;
    }
    var parts := Split(s, '/');
    var path := [];
    for i := 0 to |parts|
      invariant RelativeSegments(parts[..i]) == Some(path)
    {
      assert parts[..i + 1][..i] == parts[..i];
      if Skipped(parts[i]) {
      } else if parts[i] == PARENT || !Portable(parts[i]) {
        RelativeStops(parts, i);
        return None;
      } else {
        path := path + [parts[i]];
      }
    }
    assert parts[..|parts|] == parts;
    r := if path == [] then None else Some(Path(false, path));
  }

  lemma {:induction false} RelativeStops(parts: seq<string>, i: nat)
    requires i < |parts| && !Skipped(parts[i]) && (parts[i] == PARENT || !Portable(parts[i]))
    ensures RelativeSegments(parts).None?
  {
    if i < |parts| - 1 {
      RelativeStops(parts[..|parts| - 1], i);
    }
  }

  predicate IsLetter(c: char) {
    'a' <= c <= 'z' || 'A' <= c <= 'Z'
  }

  predicate IsSafeRelativePath(rel: string) {
    && rel != [] && '\\' !in rel
    && (forall i :: 0 <= i < |Split(rel, '/')| ==> !Skipped(Split(rel, '/')[i]) && Split(rel, '/')[i] != PARENT)
    && rel[0] != '/'
    && !(|rel| >= 2 && IsLetter(rel[0]) && rel[1] == ':')
  }

  /** A component that can be joined to a root. */
  predicate Acceptable(segment: string) {
    IsSegment(segment) && '\\' !in segment && segment != PARENT && Portable(segment)
  }

  lemma {:induction false} RelativeSegmentsAre(parts: seq<string>)
    requires forall i :: 0 <= i < |parts| ==> '/' !in parts[i] && '\\' !in parts[i]
    ensures RelativeSegments(parts).Some? ==>
              forall i :: 0 <= i < |RelativeSegments(parts).value| ==> Acceptable(RelativeSegments(parts).value[i])
  {
    hide Portable;
    if parts != [] {
      var n := |parts| - 1;
      RelativeSegmentsAre(parts[..n]);
      assert '/' !in parts[n] && '\\' !in parts[n];
    }
  }

  /** What is accepted as a relative path is safe to join to a root as it is written. */
  lemma AcceptedIsSafe(reference: string)
    requires RelativePath(reference).Some?
    ensures var p := RelativePath(reference).value;
      !p.absolute && IsSafeRelativePath(Render(p)) && Parse(Render(p)) == p && Normalize(p) == p
  {
    hide Split, RelativeSegments, Join;
    var s, p := Slashed(reference), RelativePath(reference).value;
    SlashedTwice(reference);
    SplitKeepsOut(s);
    RelativeSegmentsAre(Split(s, '/'));
    assert RelativeSegments(Split(s, '/')) == Some(p.segments);
    assert forall i :: 0 <= i < |p.segments| ==> Acceptable(p.segments[i]);
    ParseRender(p);
    SplitJoin(p.segments);
    JoinStarts(p.segments);
    JoinKeepsOut(p.segments);
    ReducedIsNormal(p.segments);
    var out := Render(p);
    assert out == Join(p.segments);
    assert Acceptable(p.segments[0]);
    if |out| >= 2 && out[1] == ':' {
      ColonInFirst(p.segments);
    }
  }

  lemma ColonInFirst(segments: seq<string>)
    requires segments != [] && WellFormed(segments) && |Join(segments)| >= 2 && Join(segments)[1] == ':'
    ensures ':' in segments[0]
  {
    if |segments| > 1 {
      var s := segments[0] + "/" + Join(segments[1..]);
      assert |segments[0]| >= 1;
      assert s[|segments[0]|] == '/';
      assert |segments[0]| > 1 ==> s[1] == segments[0][1] && segments[0][1] in segments[0];
    } else {
      assert segments[0][1] in segments[0];
    }
  }

  lemma {:induction false} RelativeKeepsAll(parts: seq<string>)
    requires forall i :: 0 <= i < |parts| ==> !Skipped(parts[i]) && parts[i] != PARENT && Portable(parts[i])
    ensures RelativeSegments(parts) == Some(parts)
  {
    if parts != [] {
      RelativeKeepsAll(parts[..|parts| - 1]);
      assert parts == parts[..|parts| - 1] + [parts[|parts| - 1]];
    }
  }

  lemma {:induction false} JoinSplit(s: string)
    ensures Join(Split(s, '/')) == s
  {
    if s != [] {
      JoinSplit(s[1..]);
      var rest := Split(s[1..], '/');
      if s[0] == '/' {
        assert ([[]] + rest)[1..] == rest;
        assert Join([[]] + rest) == "" + "/" + Join(rest);
      } else {
        var parts := [[s[0]] + rest[0]] + rest[1..];
        if |rest| == 1 {
          assert Join(parts) == [s[0]] + rest[0];
        } else {
          assert parts[1..] == rest[1..];
          assert Join(parts) == [s[0]] + rest[0] + "/" + Join(rest[1..]);
        }
      }
    }
  }

  lemma {:induction false} CharsOfParts(s: string, c: char)
    requires c != '/' && c !in s
    ensures forall i :: 0 <= i < |Split(s, '/')| ==> c !in Split(s, '/')[i]
  {
    if s != [] {
      CharsOfParts(s[1..], c);
    }
  }

  /** A segment that makes a reference unacceptable. */
  predicate Forbidden(segment: string) {
    !Skipped(segment) && (segment == PARENT || !Portable(segment))
  }

  lemma {:induction false} RelativeSegmentsIff(parts: seq<string>)
    ensures RelativeSegments(parts).Some? <==> forall i :: 0 <= i < |parts| ==> !Forbidden(parts[i])
    ensures RelativeSegments(parts).Some? ==>
              (RelativeSegments(parts).value == [] <==> forall i :: 0 <= i < |parts| ==> Skipped(parts[i]))
  {
    hide Portable;
    if parts != [] {
      var n := |parts| - 1;
      RelativeSegmentsIff(parts[..n]);
      assert parts == parts[..n] + [parts[n]];
    }
  }

  /** A reference is accepted as a relative path exactly when it does not start with a slash, none of its
      segments is `..` or holds a colon or a NUL, and some segment names something. */
  lemma AcceptedIff(reference: string)
    ensures RelativePath(reference).Some? <==>
            var s := Slashed(reference); var parts := Split(s, '/');
            && s != [] && s[0] != '/'
            && (forall i :: 0 <= i < |parts| ==> !Forbidden(parts[i]))
            && exists i :: 0 <= i < |parts| && !Skipped(parts[i])
  {
    hide Split, Portable, RelativeSegments;
    var s := Slashed(reference);
    RelativeSegmentsIff(Split(s, '/'));
    if s != [] && s[0] != '/' && |s| > 1 && s[1] == ':' {
      DriveIsForbidden(s);
    }
  }

  /** A drive letter makes the first segment forbidden. */
  lemma DriveIsForbidden(s: string)
    requires |s| > 1 && s[0] != '/' && s[1] == ':'
    ensures Forbidden(Split(s, '/')[0])
  {
    var rest := Split(s[1..], '/');
    var tail := Split(s[1..][1..], '/');
    assert s[1..][0] == ':' && rest[0] == [':'] + tail[0];
    assert Split(s, '/')[0] == [s[0]] + rest[0];
    var first := Split(s, '/')[0];
    assert first[1] == ':' && first[1] in first;
  }

  /** A spelling is accepted and names itself exactly when it is safe and holds neither a colon nor a NUL. */
  lemma NamesItselfIff(rel: string)
    ensures RelativePath(rel).Some? && Render(RelativePath(rel).value) == rel
       <==> IsSafeRelativePath(rel) && ':' !in rel && '\0' !in rel
  {
    hide IsSafeRelativePath, RelativePath;
    if IsSafeRelativePath(rel) && ':' !in rel && '\0' !in rel {
      SafeIsAccepted(rel);
    }
    if RelativePath(rel).Some? && Render(RelativePath(rel).value) == rel {
      AcceptedIsSafe(rel);
      AcceptedIsPortable(rel);
    }
  }

  lemma AcceptedIsPortable(reference: string)
    requires RelativePath(reference).Some?
    ensures Portable(Render(RelativePath(reference).value))
  {
    hide Split, RelativeSegments, Portable;
    var s, p := Slashed(reference), RelativePath(reference).value;
    SlashedTwice(reference);
    SplitKeepsOut(s);
    RelativeSegmentsAre(Split(s, '/'));
    assert RelativeSegments(Split(s, '/')) == Some(p.segments);
    assert forall i :: 0 <= i < |p.segments| ==> Acceptable(p.segments[i]);
    JoinIsPortable(p.segments);
    assert Render(p) == Join(p.segments);
  }

  lemma {:induction false} JoinIsPortable(segments: seq<string>)
    requires forall i :: 0 <= i < |segments| ==> Portable(segments[i])
    ensures Portable(Join(segments))
    decreases |segments|
  {
    if |segments| > 1 {
      JoinIsPortable(segments[1..]);
    }
  }

  lemma SafeIsAccepted(rel: string)
    requires IsSafeRelativePath(rel) && ':' !in rel && '\0' !in rel
    ensures RelativePath(rel).Some? && Render(RelativePath(rel).value) == rel
  {
    var parts := Split(rel, '/');
    SlashedTwice(rel);
    CharsOfParts(rel, ':');
    CharsOfParts(rel, '\0');
    RelativeKeepsAll(parts);
    JoinSplit(rel);
    assert |rel| > 1 ==> rel[1] in rel;
  }
}
