/** `TwinRoots::register`: the name under which an opened folder is addressed. */
module TwinRoots {
  import opened AssetPaths
  import opened Numerals
  import opened Text
  import opened Wrappers

  /** A folder as it was opened, and the folder it really is: what the filesystem resolves it to. */
  type Folder = string
  type Resolve = Folder -> Folder

  /** The names tried, in order: the requested one, then `-2`, `-3`, … */
  function Candidate(requested: string, n: nat): string
    requires n >= 1
  {
    if n == 1 then requested else requested + "-" + ShowNat(n)
  }

  lemma CandidatesDiffer(requested: string, m: nat, n: nat)
    requires 1 <= m < n
    ensures Candidate(requested, m) != Candidate(requested, n)
  {
    var long := Candidate(requested, n);
    assert |long| > |requested|;
    if m > 1 && Candidate(requested, m) == long {
      var k := |requested + "-"|;
      assert Candidate(requested, m)[k..] == ShowNat(m) && long[k..] == ShowNat(n);
      ShowNatInjective(m, n);
    }
  }

  /** A name is open to a folder if it is free or already stands for that folder. */
  predicate OpenTo(roots: map<string, Folder>, name: string, resolve: Resolve, root: Folder) {
    name in roots ==> resolve(roots[name]) == resolve(root)
  }

  function Tried(requested: string, n: nat): (r: set<string>) {
    set i | 1 <= i <= n :: Candidate(requested, i)
  }

  lemma {:induction false} TriedMany(requested: string, n: nat)
    ensures |Tried(requested, n)| == n
  {
    if n == 0 {
      assert Tried(requested, 0) == {};
    } else {
      TriedMany(requested, n - 1);
      forall i | 1 <= i < n ensures Candidate(requested, i) != Candidate(requested, n) {
        CandidatesDiffer(requested, i, n);
      }
      assert Candidate(requested, n) !in Tried(requested, n - 1);
      assert Tried(requested, n) == Tried(requested, n - 1) + {Candidate(requested, n)};
    }
  }

  lemma SubsetIsSmaller<T>(a: set<T>, b: set<T>)
    requires a <= b
    ensures |a| <= |b|
  {
    assert b == a + (b - a);
  }

  /** More names than there are open Twins cannot all be taken. */
  lemma SomeNameIsOpen(roots: map<string, Folder>, requested: string, n: nat)
    requires forall i :: 1 <= i <= n ==> Candidate(requested, i) in roots
    ensures n <= |roots|
  {
    TriedMany(requested, n);
    SubsetIsSmaller(Tried(requested, n), roots.Keys);
  }

  /** The number of the first candidate that is open. */
  function FirstOpen(roots: map<string, Folder>, requested: string, resolve: Resolve, root: Folder, from: nat): (n: nat)
    requires from >= 1 && forall i :: 1 <= i < from ==> Candidate(requested, i) in roots
    ensures n >= from && OpenTo(roots, Candidate(requested, n), resolve, root)
    ensures forall i :: from <= i < n ==> !OpenTo(roots, Candidate(requested, i), resolve, root)
    ensures n <= |roots| + 1
    decreases |roots| + 1 - from
  {
    SomeNameIsOpen(roots, requested, from - 1);
    if OpenTo(roots, Candidate(requested, from), resolve, root) then from
    else
      SomeNameIsOpen(roots, requested, from);
      FirstOpen(roots, requested, resolve, root, from + 1)
  }

  lemma FirstOpenIs(roots: map<string, Folder>, requested: string, resolve: Resolve, root: Folder, n: nat)
    requires n >= 1 && OpenTo(roots, Candidate(requested, n), resolve, root)
    requires forall i :: 1 <= i < n ==> !OpenTo(roots, Candidate(requested, i), resolve, root)
    ensures FirstOpen(roots, requested, resolve, root, 1) == n
  {
    hide OpenTo, Candidate;
  }

  function AssignedName(roots: map<string, Folder>, requested: string, resolve: Resolve, root: Folder): string {
    Candidate(requested, FirstOpen(roots, requested, resolve, root, 1))
  }

  /** The name stands for another folder. */
  predicate TakenFrom(roots: map<string, Folder>, name: string, resolve: Resolve, root: Folder) {
    name in roots && resolve(roots[name]) != resolve(root)
  }

  /** The requested name, unless it stands for another folder; else the first of `name-2`, `name-3` and so on that
      does not. */
  lemma AssignedNameIs(roots: map<string, Folder>, requested: string, resolve: Resolve, root: Folder)
    ensures !TakenFrom(roots, requested, resolve, root) ==> AssignedName(roots, requested, resolve, root) == requested
    ensures TakenFrom(roots, requested, resolve, root) ==>
      exists n: nat :: n >= 2 && AssignedName(roots, requested, resolve, root) == requested + "-" + ShowNat(n)
        && !TakenFrom(roots, requested + "-" + ShowNat(n), resolve, root)
        && forall i: nat :: 2 <= i < n ==> TakenFrom(roots, requested + "-" + ShowNat(i), resolve, root)
  {
    var n := FirstOpen(roots, requested, resolve, root, 1);
    if TakenFrom(roots, requested, resolve, root) {
      assert !OpenTo(roots, Candidate(requested, 1), resolve, root);
      assert n >= 2;
      forall i: nat | 2 <= i < n ensures TakenFrom(roots, requested + "-" + ShowNat(i), resolve, root) {
        assert !OpenTo(roots, Candidate(requested, i), resolve, root);
      }
      assert AssignedName(roots, requested, resolve, root) == requested + "-" + ShowNat(n);
    } else {
      assert OpenTo(roots, Candidate(requested, 1), resolve, root);
    }
  }

  function Registered(roots: map<string, Folder>, requested: string, resolve: Resolve, root: Folder): map<string, Folder> {
    roots[AssignedName(roots, requested, resolve, root) := root]
  }

  class Roots {
    var roots: map<string, Folder>

    constructor ()
      ensures roots == map[]
    {
      roots := map[];
    }

    method Register(requested: string, resolve: Resolve, root: Folder) returns (name: string)
      modifies this
      ensures name == AssignedName(old(roots), requested, resolve, root)
      ensures roots == Registered(old(roots), requested, resolve, root)
    {
      var canonical := resolve(root);
      name := requested;
      var n := 1;
      while name in roots && resolve(roots[name]) != canonical
        invariant n >= 1 && name == Candidate(requested, n) && roots == old(roots)
        invariant forall i :: 1 <= i < n ==> Candidate(requested, i) in roots
        invariant FirstOpen(roots, requested, resolve, root, 1) == FirstOpen(roots, requested, resolve, root, n)
        decreases |roots| + 1 - n
      {
        SomeNameIsOpen(roots, requested, n);
        n := n + 1;
        name := requested + "-" + ShowNat(n);
      }
      roots := roots[name := root];
    }
  }

  // ----- What every run of registrations keeps -----

  datatype Registration = Registration(requested: string, root: Folder)

  function AllRegistered(roots: map<string, Folder>, resolve: Resolve, rs: seq<Registration>): map<string, Folder>
    decreases |rs|
  {
    if rs == [] then roots
    else AllRegistered(Registered(roots, rs[0].requested, resolve, rs[0].root), resolve, rs[1..])
  }

  /** A name, once given out, never stands for a different folder. */
  lemma {:induction false} NamesStay(roots: map<string, Folder>, resolve: Resolve, rs: seq<Registration>, name: string)
    requires name in roots
    ensures name in AllRegistered(roots, resolve, rs)
    ensures resolve(AllRegistered(roots, resolve, rs)[name]) == resolve(roots[name])
    decreases |rs|
  {
    if rs != [] {
      var next := Registered(roots, rs[0].requested, resolve, rs[0].root);
      assert next[name] == roots[name] || resolve(next[name]) == resolve(roots[name]);
      NamesStay(next, resolve, rs[1..], name);
    }
  }

  /** Opening the same folder under the same name again, at any later time and however its path is
      spelled, gives back the name it was given first. */
  lemma ReopenedUnderItsName(
    roots: map<string, Folder>, resolve: Resolve, requested: string, root: Folder, later: seq<Registration>, again: Folder)
    requires resolve(again) == resolve(root)
    ensures var now := AllRegistered(Registered(roots, requested, resolve, root), resolve, later);
      AssignedName(now, requested, resolve, again) == AssignedName(roots, requested, resolve, root)
  {
    var n := FirstOpen(roots, requested, resolve, root, 1);
    var first := Registered(roots, requested, resolve, root);
    var now := AllRegistered(first, resolve, later);
    NamesStay(first, resolve, later, Candidate(requested, n));
    forall i | 1 <= i < n ensures !OpenTo(now, Candidate(requested, i), resolve, again) {
      assert !OpenTo(roots, Candidate(requested, i), resolve, root);
      CandidatesDiffer(requested, i, n);
      assert first[Candidate(requested, i)] == roots[Candidate(requested, i)];
      NamesStay(first, resolve, later, Candidate(requested, i));
    }
    FirstOpenIs(now, requested, resolve, again, n);
  }

  // ----- Addresses -----

  const TWIN_SCHEME: string := "twin"

  function TrimSlashes(s: string): string {
    if s != [] && s[0] == '/' then TrimSlashes(s[1..]) else s
  }

  function TwinUri(name: string, rel: string): string {
    Uri(TWIN_SCHEME, name + "/" + TrimSlashes(Slashed(rel)))
  }

  predicate IsSeparator(c: char) {
    c == '/' || c == '\\'
  }

  /** The first separator splits the name from the path. */
  function SplitTwinRel(rest: string): (r: Option<(string, string)>)
    ensures r.Some? ==> |r.value.0| < |rest| && IsSeparator(rest[|r.value.0|])
                        && rest == r.value.0 + [rest[|r.value.0|]] + r.value.1
    ensures r.Some? ==> forall i :: 0 <= i < |r.value.0| ==> !IsSeparator(rest[i])
    ensures r.None? ==> forall i :: 0 <= i < |rest| ==> !IsSeparator(rest[i])
  {
    if rest == [] then None
    else if IsSeparator(rest[0]) then Some(("", rest[1..]))
    else
      match SplitTwinRel(rest[1..])
      case Some((name, rel)) =>
        assert rest == [rest[0]] + rest[1..];
        Some(([rest[0]] + name, rel))
      case None => None
  }

  function ParseTwinUri(uri: string): Option<(string, string)> {
    match SplitScheme(uri)
    case Some((scheme, rest)) => if scheme == TWIN_SCHEME then SplitTwinRel(rest) else None
    case None => None
  }

  /** An address is taken apart into what it was built from exactly when the Twin's name holds no
      separator; otherwise the name is cut short. */
  lemma TwinUriRoundTripIff(name: string, rel: string)
    ensures ParseTwinUri(TwinUri(name, rel)) == Some((name, TrimSlashes(Slashed(rel))))
       <==> '/' !in name && '\\' !in name
  {
    var tail := TrimSlashes(Slashed(rel));
    var rest := name + "/" + tail;
    forall i | 0 <= i < |TWIN_SCHEME| ensures !MarkAt(TWIN_SCHEME + SCHEME_MARK, i) {
      assert TWIN_SCHEME == ['t', 'w', 'i', 'n'];
      assert (TWIN_SCHEME + SCHEME_MARK)[i] == TWIN_SCHEME[i];
    }
    MarkInPrefix(TWIN_SCHEME, rest);
    assert ParseTwinUri(TwinUri(name, rel)) == SplitTwinRel(rest);
    assert rest[|name|] == '/';
    var split := SplitTwinRel(rest);
    assert split.Some?;
    var cut := |split.value.0|;
    assert cut <= |name|;
    if '/' !in name && '\\' !in name {
      assert forall i :: 0 <= i < |name| ==> rest[i] == name[i] && rest[i] in name;
      assert cut == |name|;
      assert rest[..cut] == name && rest[cut + 1..] == tail;
      assert rest[..cut] == split.value.0 && rest[cut + 1..] == split.value.1;
    } else {
      var i :| 0 <= i < |name| && IsSeparator(name[i]);
      assert rest[i] == name[i];
      assert cut <= i;
    }
  }

  /** An address as it is written: a path that starts with neither separator comes back as it was, but for
      backslashes, and any number of separators in front of it makes no difference. */
  lemma TwinUriIs(name: string, rel: string, lead: string)
    requires forall i :: 0 <= i < |lead| ==> IsSeparator(lead[i])
    requires rel == "" || !(rel[0] == '/' || rel[0] == '\\')
    ensures TwinUri(name, lead + rel) == "twin://" + name + "/" + Slashed(rel)
  {
    LeadIsTrimmed(lead, rel);
  }

  lemma {:induction false} LeadIsTrimmed(lead: string, rel: string)
    requires forall i :: 0 <= i < |lead| ==> IsSeparator(lead[i])
    requires rel == "" || !(rel[0] == '/' || rel[0] == '\\')
    ensures TrimSlashes(Slashed(lead + rel)) == Slashed(rel)
  {
    if lead == "" {
      assert lead + rel == rel;
    } else {
      LeadIsTrimmed(lead[1..], rel);
      assert Slashed(lead + rel)[1..] == Slashed(lead[1..] + rel);
    }
  }
}
