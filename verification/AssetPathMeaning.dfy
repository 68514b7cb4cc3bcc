/** What written paths mean: a walk over the raw pieces between slashes, where an empty piece and `.` stay put,
    `..` goes up and anything else enters. */
module AssetPathMeaning {
  import opened AssetPaths
  import opened Text
  import opened Wrappers

  function RawWalk<D(!new)>(t: Tree<D>, d: D, parts: seq<string>): D {
    if parts == [] then d
    else
      var before, last := RawWalk(t, d, parts[..|parts| - 1]), parts[|parts| - 1];
      if last == "" || last == "." then before
      else if last == ".." then t.up(before)
      else t.enter(before, last)
  }

  /** Where a written path leads. */
  function Leads<D(!new)>(t: Tree<D>, d: D, path: string): D {
    RawWalk(t, d, Split(path, '/'))
  }

  predicate StartsWith(s: string, c: char) {
    s != [] && s[0] == c
  }

  // ----- Reading a path -----

  lemma {:induction false} NamedConcat(a: seq<string>, b: seq<string>)
    ensures Named(a + b) == Named(a) + Named(b)
  {
    if a == [] {
      assert a + b == b;
    } else {
      assert (a + b)[0] == a[0] && (a + b)[1..] == a[1..] + b;
      NamedConcat(a[1..], b);
    }
  }

  lemma NamedOne(part: string)
    ensures Named([part]) == if Skipped(part) then [] else [part]
  {
    assert Named([part][1..]) == [];
  }

  lemma NamedSnoc(init: seq<string>, last: string)
    ensures Named(init + [last]) == Named(init) + if Skipped(last) then [] else [last]
  {
    hide Skipped;
    NamedConcat(init, [last]);
    NamedOne(last);
    hide Named;
  }

  lemma {:induction false} NamedWalksAlike<D(!new)>(t: Tree<D>, d: D, parts: seq<string>)
    ensures Walk(t, d, Named(parts)) == RawWalk(t, d, parts)
  {
    if parts != [] {
      var init, last := parts[..|parts| - 1], parts[|parts| - 1];
      NamedWalksAlike(t, d, init);
      NamedSnoc(init, last);
      assert parts == init + [last];
      WalkSnoc(t, d, Named(init), last);
      hide Walk, Named;
    }
  }

  lemma WalkSnoc<D(!new)>(t: Tree<D>, d: D, init: seq<string>, last: string)
    ensures var before := Walk(t, d, init);
      Walk(t, d, init + [last]) == if last == ".." then t.up(before) else t.enter(before, last)
    ensures Walk(t, d, init + []) == Walk(t, d, init)
  {
    assert (init + [last])[..|init|] == init && init + [] == init;
  }

  /** Reading a path loses nothing of where it leads, from any directory of any tree. */
  lemma ParsedLeadsAlike<D(!new)>(t: Tree<D>, d: D, s: string)
    ensures Walk(t, d, Parse(s).segments) == Leads(t, d, s)
  {
    NamedWalksAlike(t, d, Split(s, '/'));
  }

  /** Neither does writing one. */
  lemma RenderedLeadsAlike<D(!new)>(t: Tree<D>, d: D, p: Path)
    requires WellFormed(p.segments)
    ensures Leads(t, d, Render(p)) == Walk(t, d, p.segments)
  {
    ParseRender(p);
    ParsedLeadsAlike(t, d, Render(p));
  }

  // ----- One spelling for one place -----

  function Canonical(s: string): string {
    Render(Normalize(Parse(s)))
  }

  ghost predicate LeadAlike(a: string, b: string) {
    forall t: Tree<seq<string>>, d :: t.Lawful() ==> Leads(t, d, a) == Leads(t, d, b)
  }

  /** Two written paths have one normal spelling exactly when both or neither start at the root and they lead
      to the same place in every tree. */
  lemma SameSpellingIff(a: string, b: string)
    ensures Canonical(a) == Canonical(b) <==> (StartsWith(a, '/') <==> StartsWith(b, '/')) && LeadAlike(a, b)
  {
    var p, q := Normalize(Parse(a)), Normalize(Parse(b));
    NormalIsReduced(Parse(a).segments);
    NormalIsReduced(Parse(b).segments);
    ParseRender(p);
    ParseRender(q);
    hide Named, Leads, Walk, Render, NormalSegments, LeadAlike;
    LeadAlikeIff(a, b);
  }

  lemma LeadAlikeIff(a: string, b: string)
    ensures LeadAlike(a, b) <==> NormalSegments(Parse(a).segments) == NormalSegments(Parse(b).segments)
  {
    SameFormIff(Parse(a).segments, Parse(b).segments);
    hide Parse, Leads, Walk, NormalSegments;
    if LeadAlike(a, b) {
      forall t: Tree<seq<string>>, d | t.Lawful()
        ensures Walk(t, d, Parse(a).segments) == Walk(t, d, Parse(b).segments)
      {
        ParsedLeadsAlike(t, d, a);
        ParsedLeadsAlike(t, d, b);
      }
    }
    if NormalSegments(Parse(a).segments) == NormalSegments(Parse(b).segments) {
      forall t: Tree<seq<string>>, d | t.Lawful() ensures Leads(t, d, a) == Leads(t, d, b) {
        ParsedLeadsAlike(t, d, a);
        ParsedLeadsAlike(t, d, b);
      }
    }
  }

  /** The pieces of a normal spelling: names, none of them empty or `.`, after as many `..` as are left over. */
  ghost predicate Plain(parts: seq<string>) {
    && (forall i :: 0 <= i < |parts| ==> parts[i] != "" && parts[i] != ".")
    && (forall i, j :: 0 <= i < j < |parts| && parts[j] == ".." ==> parts[i] == "..")
  }

  /** A text in normal spelling; the empty one is the place itself, and one slash may lead. */
  ghost predicate IsPlain(s: string) {
    var rel := if StartsWith(s, '/') then s[1..] else s;
    rel == "" || Plain(Split(rel, '/'))
  }

  lemma RenderedIsPlain(p: Path)
    requires WellFormed(p.segments) && Reduced(p.segments)
    ensures IsPlain(Render(p))
  {
    JoinStarts(p.segments);
    var s := Render(p);
    assert s[if p.absolute then 1 else 0..] == Join(p.segments);
    if p.segments != [] {
      SplitJoin(p.segments);
    }
  }

  // ----- Naming a root -----

  /** A bare root reference keeps leading where it led, in normal spelling, and starts at the root only if it
      started with two separators; one with a scheme keeps it. */
  lemma RootLeadsAlike<D(!new)>(reference: string, t: Tree<D>, d: D)
    requires t.Lawful()
    ensures var canonical := CanonicalizeRoot(reference);
      if HasScheme(Slashed(reference)) then canonical == Slashed(reference)
      else
        && Leads(t, d, canonical) == Leads(t, d, Slashed(reference))
        && IsPlain(canonical)
        && (StartsWith(canonical, '/') <==> DoublySlashed(reference))
  {
    RootIs(reference);
    hide DoublySlashed, Leads, IsPlain, HasScheme, Canonical, CanonicalizeRoot, Slashed, RootPath, Render, WellFormed, Reduced;
    var s := Slashed(reference);
    var rel := if StartsWith(s, '/') then s[1..] else s;
    RootPathIsPlain(reference);
    RenderedIsPlain(RootPath(reference));
    RenderedIsBare(RootPath(reference));
    CanonicalLeadsAlike(t, d, rel);
    if StartsWith(s, '/') {
      SlashLeadsNowhere(t, d, rel);
      assert s == "/" + rel;
    }
  }

  lemma RootIs(reference: string)
    ensures var s := Slashed(reference);
      var rel := if StartsWith(s, '/') then s[1..] else s;
      && Canonical(rel) == Render(RootPath(reference))
      && CanonicalizeRoot(reference) == if HasScheme(s) then s else Render(RootPath(reference))
  {
  }

  lemma CanonicalLeadsAlike<D(!new)>(t: Tree<D>, d: D, s: string)
    requires t.Lawful()
    ensures Leads(t, d, Canonical(s)) == Leads(t, d, s)
  {
    hide Leads, Parse, Render, NormalSegments, Walk;
    NormalIsReduced(Parse(s).segments);
    RenderedLeadsAlike(t, d, Normalize(Parse(s)));
    NormalWalksAlike(t, d, Parse(s).segments);
    ParsedLeadsAlike(t, d, s);
  }

  lemma SlashLeadsNowhere<D(!new)>(t: Tree<D>, d: D, s: string)
    ensures Leads(t, d, "/" + s) == Leads(t, d, s)
  {
    SplitAfterSlash(s);
    NamedSkips(Split(s, '/'));
    NamedWalksAlike(t, d, Split("/" + s, '/'));
    NamedWalksAlike(t, d, Split(s, '/'));
  }

  // ----- Relative references -----

  /** The pieces that name the directory a document is in: all before its last name. */
  function Containing(parts: seq<string>): seq<string> {
    if parts == [] then []
    else
      var n := |parts| - 1;
      if parts[n] == "" || parts[n] == "." then Containing(parts[..n]) else parts[..n]
  }

  lemma {:induction false} ContainingIsParent(parts: seq<string>)
    ensures var names := Named(parts);
      Named(Containing(parts)) == if names == [] then [] else names[..|names| - 1]
  {
    if parts != [] {
      var init, last := parts[..|parts| - 1], parts[|parts| - 1];
      NamedSnoc(init, last);
      assert parts == init + [last];
      ContainingIsParent(init);
      assert !Skipped(last) ==> (Named(init) + [last])[..|Named(init)|] == Named(init);
      assert Skipped(last) ==> Named(init) + [] == Named(init);
      hide Named;
    }
  }

  lemma ParentLeadsAlike<D(!new)>(t: Tree<D>, d: D, path: string)
    ensures Walk(t, d, Parent(Parse(path)).segments) == RawWalk(t, d, Containing(Split(path, '/')))
  {
    hide Split, Named, Walk, RawWalk, Containing;
    var parts := Split(path, '/');
    ContainingIsParent(parts);
    NamedWalksAlike(t, d, Containing(parts));
  }

  /** The path of a document, without its scheme. */
  function PathOf(anchor: string): string {
    match SplitScheme(anchor)
    case Some((_, path)) => path
    case None => anchor
  }

  /** A relative reference keeps its document's scheme and, in normal spelling, leads where its own pieces lead
      from the document's directory: in every tree, over the texts as they are written. */
  lemma RelativeWalksFromDocument<D(!new)>(reference: string, anchor: string, t: Tree<D>, root: D)
    requires t.Lawful() && !IsAnchored(Slashed(reference))
    ensures var path := PathOf(anchor);
      var canonical := Canonicalize(reference, anchor);
      && (HasScheme(canonical) <==> HasScheme(anchor))
      && (HasScheme(anchor) ==> SplitScheme(canonical).value.0 == SplitScheme(anchor).value.0)
      && IsPlain(PathOf(canonical))
      && Leads(t, root, PathOf(canonical))
         == Leads(t, RawWalk(t, root, Containing(Split(Slashed(path), '/'))), Slashed(reference))
  {
    var path := PathOf(anchor);
    var joined := Joined(Parent(Parse(Slashed(path))), Slashed(reference));
    RelativeResolvesTo(reference, anchor);
    hide Leads, IsPlain, Parse, Walk, Canonicalize, IsAnchored, PathOf, Parent;
    var base := Parent(Parse(Slashed(path))).segments;
    NormalIsReduced(joined.segments);
    RenderedIsPlain(Normalize(joined));
    RenderedLeadsAlike(t, root, Normalize(joined));
    NormalWalksAlike(t, root, joined.segments);
    WalkConcat(t, root, base, Parse(Slashed(reference)).segments);
    ParentLeadsAlike(t, root, Slashed(path));
    ParsedLeadsAlike(t, Walk(t, root, base), Slashed(reference));
  }

  lemma RelativeResolvesTo(reference: string, anchor: string)
    requires !IsAnchored(Slashed(reference))
    ensures var joined := Joined(Parent(Parse(Slashed(PathOf(anchor)))), Slashed(reference));
      var canonical := Canonicalize(reference, anchor);
      && WellFormed(joined.segments)
      && PathOf(canonical) == Render(Normalize(joined))
      && (HasScheme(canonical) <==> HasScheme(anchor))
      && (HasScheme(anchor) ==> SplitScheme(canonical).value.0 == SplitScheme(anchor).value.0)
  {
    var joined := Joined(Parent(Parse(Slashed(PathOf(anchor)))), Slashed(reference));
    NormalIsReduced(joined.segments);
    if HasScheme(anchor) {
      SplitIsFirst(anchor, Render(Normalize(joined)));
    } else {
      RenderedIsBare(Normalize(joined));
    }
  }

  /** A scheme is what stands before the first `://`. */
  lemma SplitSchemeIff(s: string, scheme: string, rest: string)
    ensures SplitScheme(s) == Some((scheme, rest)) <==>
      s == scheme + "://" + rest && forall i :: 0 <= i < |scheme| ==> !("://" <= s[i..])
  {
    forall i: nat ensures MarkAt(s, i) <==> i <= |s| && "://" <= s[i..] {
      MarkAtIff(s, i);
    }
    if SplitScheme(s) == Some((scheme, rest)) {
      var i := |scheme|;
      assert s == s[..i] + s[i..i + 3] + s[i + 3..];
      assert s[i..i + 3] == "://";
    }
    if s == scheme + "://" + rest && forall i :: 0 <= i < |scheme| ==> !("://" <= s[i..]) {
      var n := |scheme|;
      assert s[n..] == "://" + rest && MarkAt(s, n);
      assert s[..n] == scheme && s[n + 3..] == rest;
    }
  }

  lemma MarkAtIff(s: string, i: nat)
    ensures MarkAt(s, i) <==> i <= |s| && "://" <= s[i..]
  {
    if i + 3 <= |s| {
      assert s[i..][0] == s[i] && s[i..][1] == s[i + 1] && s[i..][2] == s[i + 2];
    }
  }

  // ----- Paths that stay inside a root -----

  /** The path starts with a drive letter, as on another host. */
  predicate OnDrive(rel: string) {
    |rel| >= 2 && ('a' <= rel[0] <= 'z' || 'A' <= rel[0] <= 'Z') && rel[1] == ':'
  }

  /** No piece is empty, `.` or `..`. */
  predicate Ordinary(parts: seq<string>) {
    forall i :: 0 <= i < |parts| ==> parts[i] != "" && parts[i] != "." && parts[i] != ".."
  }

  /** A path is safe exactly when it holds no backslash, every piece between slashes is ordinary, and it does not
      start with a drive letter: it is then not empty and starts with no slash. */
  lemma SafeIff(rel: string)
    ensures IsSafeRelativePath(rel) <==> '\\' !in rel && !OnDrive(rel) && Ordinary(Split(rel, '/'))
  {
    FirstPiece(rel);
  }

  lemma FirstPiece(s: string)
    ensures Split(s, '/')[0] == "" <==> s == "" || s[0] == '/'
  {
  }

  /** A reference is accepted exactly when it does not start with a separator, no piece is `..` or holds a colon
      or a NUL, and some piece is neither empty nor `.`; what it is accepted as leads where it leads. */
  lemma AcceptedLeadsAlike<D(!new)>(reference: string, t: Tree<D>, d: D)
    ensures var parts := Split(Slashed(reference), '/');
      RelativePath(reference).Some? <==>
        && !StartsWith(Slashed(reference), '/')
        && (forall i :: 0 <= i < |parts| ==> parts[i] != ".." && ':' !in parts[i] && '\0' !in parts[i])
        && exists i :: 0 <= i < |parts| && parts[i] !in {"", "."}
    ensures RelativePath(reference).Some? ==>
      Leads(t, d, Render(RelativePath(reference).value)) == Leads(t, d, Slashed(reference))
  {
    var s := Slashed(reference);
    var parts := Split(s, '/');
    AcceptedIff(reference);
    assert s == "" ==> parts == [""];
    forall i | 0 <= i < |parts| ensures Forbidden(parts[i]) <==> parts[i] == ".." || ':' in parts[i] || '\0' in parts[i] {
    }
    assert forall i :: 0 <= i < |parts| ==> (Skipped(parts[i]) <==> parts[i] in {"", "."});
    if RelativePath(reference).Some? {
      AcceptedSegments(parts);
      AcceptedIsSafe(reference);
      ParsedLeadsAlike(t, d, s);
      ParsedLeadsAlike(t, d, Render(RelativePath(reference).value));
    }
  }

  lemma {:induction false} AcceptedSegments(parts: seq<string>)
    requires RelativeSegments(parts).Some?
    ensures RelativeSegments(parts).value == Named(parts)
  {
    if parts != [] {
      var init, last := parts[..|parts| - 1], parts[|parts| - 1];
      AcceptedSegments(init);
      NamedSnoc(init, last);
      assert parts == init + [last];
      hide Named;
    }
  }
}
