/**
 The trusted-path walk (internal/securefile/securefile.go) on a static file system, against a
 recursive pathname resolver in the manner of section 4.13 of POSIX.1-2017 XBD.

 A file system maps canonical locations, sequences of names from the root, to entries.
 */
module SecurePath {
  import opened Wrappers
  import opened Text

  type Path = seq<string>

  datatype Entry =
    | Directory(uid: int, openToOthers: bool, sticky: bool)
    | Symlink(uid: int, target: string)
    | Other(uid: int)

  type FileSystem = map<Path, Entry>

  const MAX_LINKS := 40

  predicate IsDirectory(fs: FileSystem, p: Path) { p in fs && fs[p].Directory? }

  predicate IsDot(c: string) { c == "" || c == "." }

  /** Every entry but the root lies in a directory, under a proper name. */
  ghost predicate WellFormed(fs: FileSystem) {
    && IsDirectory(fs, [])
    && forall p | p in fs && p != [] :: IsDirectory(fs, Parent(p)) && !IsDot(p[|p| - 1]) && p[|p| - 1] != ".."
  }

  function Parent(p: Path): Path { if p == [] then [] else p[..|p| - 1] }

  predicate IsAbsolute(path: string) { path != "" && path[0] == '/' }

  /** strings.Split by the separator. */
  function Components(path: string): seq<string> { Split(path, '/') }

  // --------------------------------------------------------------- reference

  /** Where a resolution ended, the links it expanded, and the entries it went through. */
  datatype Walked = Walked(at: Path, links: nat, visited: set<Path>)

  /**
   Resolves a relative pathname to a directory: dot stays, dot-dot goes to the physical parent, and
   a symbolic link is resolved first, from the root or from the directory it lies in, before the
   rest. None when a name is missing or not a directory, or when links run out.
   */
  function Resolve(fs: FileSystem, at: Path, comps: seq<string>, links: nat): (r: Option<Walked>)
    requires links <= MAX_LINKS
    ensures r.Some? ==> links <= r.value.links <= MAX_LINKS
    decreases MAX_LINKS - links, |comps|
  {
    if comps == [] then Some(Walked(at, links, {}))
    else if IsDot(comps[0]) then Resolve(fs, at, comps[1..], links)
    else if comps[0] == ".." then Resolve(fs, Parent(at), comps[1..], links)
    else
      var p := at + [comps[0]];
      if p !in fs then None
      else
        match fs[p]
        case Other(_) => None
        case Directory(_, _, _) => Visiting(p, Resolve(fs, p, comps[1..], links))
        case Symlink(_, target) =>
          if links == MAX_LINKS then None
          else
            match Resolve(fs, if IsAbsolute(target) then [] else at, Components(target), links + 1)
            case None => None
            case Some(inner) => Visiting(p, After(inner, Resolve(fs, inner.at, comps[1..], inner.links)))
  }

  function Visiting(p: Path, r: Option<Walked>): Option<Walked> {
    match r
    case None => None
    case Some(w) => Some(w.(visited := {p} + w.visited))
  }

  function After(first: Walked, r: Option<Walked>): Option<Walked> {
    match r
    case None => None
    case Some(w) => Some(w.(visited := first.visited + w.visited))
  }

  /** Owned by the broker user or root; a directory also closed to others, or root's and sticky. */
  predicate Trusted(e: Entry, euid: int) {
    && (e.uid == 0 || e.uid == euid)
    && (e.Directory? ==> !e.openToOthers || (e.uid == 0 && e.sticky))
  }

  ghost predicate AllTrusted(fs: FileSystem, euid: int, ps: set<Path>) {
    forall p | p in ps :: p in fs && Trusted(fs[p], euid)
  }

  ghost predicate AcceptsFrom(fs: FileSystem, euid: int, at: Path, comps: seq<string>, links: nat)
    requires links <= MAX_LINKS
  {
    match Resolve(fs, at, comps, links)
    case None => false
    case Some(w) => AllTrusted(fs, euid, w.visited)
  }

  /** The path resolves to a directory, and the root and everything on the way can be trusted. */
  ghost predicate Accepts(fs: FileSystem, euid: int, dir: string) {
    RootTrusted(fs, euid) && AcceptsFrom(fs, euid, [], Components(dir), 0)
  }

  predicate RootTrusted(fs: FileSystem, euid: int) { IsDirectory(fs, []) && Trusted(fs[[]], euid) }

  // ------------------------------------------------------------------- walk

  /** filepath.Join of a clean absolute path and one component, by text alone. */
  function JoinPath(resolved: Path, c: string): Path {
    if IsDot(c) then resolved else if c == ".." then Parent(resolved) else resolved + [c]
  }

  /** lstat: the directory part is resolved, links and all; the last name is not followed. */
  function Lstat(fs: FileSystem, path: Path): Option<Entry> {
    if path == [] then (if [] in fs then Some(fs[[]]) else None)
    else
      match Resolve(fs, [], Parent(path), 0)
      case None => None
      case Some(w) => var p := w.at + [path[|path| - 1]]; if p in fs then Some(fs[p]) else None
  }

  /** Asking the system about the joined path; what it says is what lies there. */
  method LstatJoined(fs: FileSystem, resolved: Path, c: string) returns (info: Option<Entry>)
    requires WellFormed(fs) && IsDirectory(fs, resolved)
    ensures var path := JoinPath(resolved, c);
            info == if path in fs then Some(fs[path]) else None
    ensures IsDot(c) || c == ".." ==> IsDirectory(fs, JoinPath(resolved, c))
  {
    JoinedEntry(fs, resolved, c);
    info := Lstat(fs, JoinPath(resolved, c));
  }

  /** The worklist loop: one component at a time, links expanded in place. */
  method CheckDirectory(fs: FileSystem, euid: int, dir: string) returns (ok: bool)
    requires WellFormed(fs) && IsAbsolute(dir)
    ensures ok <==> Accepts(fs, euid, dir)
  {
    ghost var verdict := Accepts(fs, euid, dir);
    var resolved: Path := [];
    var pending := Components(dir);
    AbsoluteStartsAtRoot(dir);
    var links := 0;
    ghost var rootSeen := false;
    while pending != []
      invariant 0 <= links <= MAX_LINKS && IsDirectory(fs, resolved)
      invariant Walking(fs, euid, verdict, resolved, pending, links, rootSeen)
      decreases MAX_LINKS - links, |pending|
    {
      var passed;
      passed, resolved, pending, links, rootSeen := Turn(fs, euid, verdict, resolved, pending, links, rootSeen);
      if !passed {
        return false;
      }
    }
    WalkDone(fs, euid, verdict, resolved, pending, links, rootSeen);
    return true;
  }

  /** A trusted link is expanded in place, unless there were too many. */
  method Follow(fs: FileSystem, euid: int, ghost verdict: bool, resolved: Path, pending: seq<string>, links: nat,
                ghost rootSeen: bool, target: string)
    returns (passed: bool, at: Path, rest: seq<string>, used: nat)
    requires WellFormed(fs) && IsDirectory(fs, resolved) && pending != [] && links <= MAX_LINKS
    requires Walking(fs, euid, verdict, resolved, pending, links, rootSeen)
    requires !IsDot(pending[0]) && pending[0] != ".."
    requires var p := resolved + [pending[0]];
             p in fs && fs[p].Symlink? && fs[p].target == target && Trusted(fs[p], euid)
    ensures !passed ==> !verdict
    ensures passed ==> links < used <= MAX_LINKS
    ensures passed ==> IsDirectory(fs, at) && Walking(fs, euid, verdict, at, rest, used, rootSeen)
  {
    at, rest, used := resolved, pending[1..], links + 1;
    if used > MAX_LINKS {
      WalkRefused(fs, euid, verdict, resolved, pending, links, rootSeen);
      return false, at, rest, used;
    }
    if IsAbsolute(target) {
      at := [];
    }
    rest := Components(target) + rest;
    WalkThrough(fs, euid, verdict, resolved, pending, links, rootSeen, target, at, rest);
    passed := true;
  }

  /** The body of the loop: the entry is refused, expanded in place, or entered. */
  method Turn(fs: FileSystem, euid: int, ghost verdict: bool, resolved: Path, pending: seq<string>, links: nat,
              ghost rootSeen: bool)
    returns (passed: bool, at: Path, rest: seq<string>, used: nat, ghost seen: bool)
    requires WellFormed(fs) && IsDirectory(fs, resolved) && pending != [] && links <= MAX_LINKS
    requires Walking(fs, euid, verdict, resolved, pending, links, rootSeen)
    ensures !passed ==> !verdict
    ensures passed ==> links <= used <= MAX_LINKS && (used == links ==> |rest| < |pending|)
    ensures passed ==> IsDirectory(fs, at) && Walking(fs, euid, verdict, at, rest, used, seen)
  {
    var path := JoinPath(resolved, pending[0]);
    var info := LstatJoined(fs, resolved, pending[0]);
    at, rest, used, seen := resolved, pending[1..], links, rootSeen;
    if info.None? || (info.value.uid != 0 && info.value.uid != euid) {
      WalkRefused(fs, euid, verdict, resolved, pending, links, rootSeen);
      return false, at, rest, used, seen;
    }
    if info.value.Symlink? {
      passed, at, rest, used := Follow(fs, euid, verdict, resolved, pending, links, rootSeen, info.value.target);
      return;
    } else {
      if info.value.Other? || (info.value.openToOthers && !(info.value.uid == 0 && info.value.sticky)) {
        WalkRefused(fs, euid, verdict, resolved, pending, links, rootSeen);
        return false, at, rest, used, seen;
      }
      WalkInto(fs, euid, verdict, resolved, pending, links, rootSeen, path);
      at, seen := path, true;
    }
    passed := true;
  }

  // ------------------------------------------------------------------ proofs

  /** The location and all the directories above it have been checked. */
  ghost predicate Guarded(fs: FileSystem, euid: int, at: Path) {
    forall i | 0 <= i <= |at| :: IsDirectory(fs, at[..i]) && Trusted(fs[at[..i]], euid)
  }

  /** An absolute path begins with an empty component, so the root is looked at first. */
  lemma AbsoluteStartsAtRoot(dir: string)
    requires IsAbsolute(dir)
    ensures Components(dir) != [] && Components(dir)[0] == ""
  {
  }

  lemma {:induction false} PrefixIsDirectory(fs: FileSystem, p: Path, i: nat)
    requires WellFormed(fs) && IsDirectory(fs, p) && i <= |p|
    ensures IsDirectory(fs, p[..i])
    decreases |p|
  {
    if i == |p| {
      assert p[..i] == p;
    } else {
      PrefixIsDirectory(fs, Parent(p), i);
      assert Parent(p)[..i] == p[..i];
    }
  }

  /** A location that is a directory by its own names resolves to itself, without meeting a link. */
  lemma {:induction false} DirectoryResolvesToItself(fs: FileSystem, p: Path, at: Path, comps: seq<string>)
    requires WellFormed(fs) && IsDirectory(fs, p) && at + comps == p
    ensures Resolve(fs, at, comps, 0).Some? && Resolve(fs, at, comps, 0).value.at == p
    decreases |comps|
  {
    if comps == [] {
      assert at == p;
    } else {
      OneFurther(p, at, comps);
      PrefixIsDirectory(fs, p, |at| + 1);
      DirectoryResolvesToItself(fs, p, at + [comps[0]], comps[1..]);
      ResolveEnters(fs, at, comps);
    }
  }

  lemma OneFurther<T>(p: seq<T>, at: seq<T>, comps: seq<T>)
    requires at + comps == p && comps != []
    ensures at + [comps[0]] == p[..|at| + 1] && p[..|at| + 1][|at|] == comps[0] && |p[..|at| + 1]| == |at| + 1
    ensures at + [comps[0]] + comps[1..] == p
  {
  }

  lemma ResolveEnters(fs: FileSystem, at: Path, comps: seq<string>)
    requires comps != [] && !IsDot(comps[0]) && comps[0] != ".." && IsDirectory(fs, at + [comps[0]])
    ensures var r, rest := Resolve(fs, at, comps, 0), Resolve(fs, at + [comps[0]], comps[1..], 0);
            r.Some? == rest.Some? && (r.Some? ==> r.value.at == rest.value.at)
  {
  }

  /** Since the resolved part is free of links, joining by text and asking the system is a plain lookup. */
  lemma JoinedEntry(fs: FileSystem, resolved: Path, c: string)
    requires WellFormed(fs) && IsDirectory(fs, resolved)
    ensures var path := JoinPath(resolved, c);
            Lstat(fs, path) == if path in fs then Some(fs[path]) else None
    ensures IsDot(c) || c == ".." ==> IsDirectory(fs, JoinPath(resolved, c))
  {
    var path := JoinPath(resolved, c);
    if path != [] {
      var dir := Parent(path);
      if IsDot(c) || c == ".." {
        assert IsDirectory(fs, path) by {
          if c == ".." { assert resolved in fs; }
        }
        assert IsDirectory(fs, dir);
      } else {
        assert dir == resolved;
      }
      assert [] + dir == dir;
      DirectoryResolvesToItself(fs, dir, [], dir);
      LastOf(path);
    }
  }

  lemma LastOf(path: Path)
    requires path != []
    ensures Parent(path) + [path[|path| - 1]] == path
  {
  }

  /** Resolving a concatenation is resolving its parts in turn. */
  lemma {:induction false} ResolveAppend(fs: FileSystem, at: Path, a: seq<string>, b: seq<string>, links: nat)
    requires links <= MAX_LINKS
    ensures Resolve(fs, at, a + b, links) ==
            match Resolve(fs, at, a, links)
            case None => None
            case Some(w) => After(w, Resolve(fs, w.at, b, w.links))
    decreases MAX_LINKS - links, |a|
  {
    if a == [] {
      assert a + b == b;
      AfterNothing(Resolve(fs, at, b, links), Walked(at, links, {}));
    } else {
      assert (a + b)[0] == a[0] && (a + b)[1..] == a[1..] + b;
      if IsDot(a[0]) {
        ResolveAppend(fs, at, a[1..], b, links);
      } else if a[0] == ".." {
        ResolveAppend(fs, Parent(at), a[1..], b, links);
      } else {
        var p := at + [a[0]];
        if p in fs && fs[p].Directory? {
          ResolveAppend(fs, p, a[1..], b, links);
          VisitingAfter(fs, p, Resolve(fs, p, a[1..], links), b);
        } else if p in fs && fs[p].Symlink? && links < MAX_LINKS {
          var inner := Resolve(fs, if IsAbsolute(fs[p].target) then [] else at, Components(fs[p].target), links + 1);
          if inner.Some? {
            ResolveAppend(fs, inner.value.at, a[1..], b, inner.value.links);
            VisitingAfterInner(fs, p, inner.value, Resolve(fs, inner.value.at, a[1..], inner.value.links), b);
          }
        }
      }
    }
  }

  lemma AfterNothing(r: Option<Walked>, w: Walked)
    requires w.visited == {}
    ensures After(w, r) == r
  {
    if r.Some? {
      assert {} + r.value.visited == r.value.visited;
    }
  }

  lemma VisitingAfter(fs: FileSystem, p: Path, r: Option<Walked>, b: seq<string>)
    requires r.Some? ==> r.value.links <= MAX_LINKS
    ensures r.Some? ==>
              (Visiting(p, After(r.value, Resolve(fs, r.value.at, b, r.value.links)))
               == After(Visiting(p, r).value, Resolve(fs, r.value.at, b, r.value.links)))
  {
    if r.Some? {
      var t := Resolve(fs, r.value.at, b, r.value.links);
      if t.Some? {
        assert {p} + (r.value.visited + t.value.visited) == ({p} + r.value.visited) + t.value.visited;
      }
    }
  }

  lemma VisitingAfterInner(fs: FileSystem, p: Path, inner: Walked, r: Option<Walked>, b: seq<string>)
    requires r.Some? ==> r.value.links <= MAX_LINKS
    ensures r.Some? ==>
              (Visiting(p, After(inner, After(r.value, Resolve(fs, r.value.at, b, r.value.links))))
               == After(Visiting(p, After(inner, r)).value, Resolve(fs, r.value.at, b, r.value.links)))
  {
    if r.Some? {
      var t := Resolve(fs, r.value.at, b, r.value.links);
      if t.Some? {
        assert {p} + (inner.visited + (r.value.visited + t.value.visited)) ==
               ({p} + (inner.visited + r.value.visited)) + t.value.visited;
      }
    }
  }

  // What one turn of the loop does to acceptance: an entry that cannot be passed ends it, any other
  // entry leaves it to the new worklist.

  lemma RefusedEntry(fs: FileSystem, euid: int, at: Path, comps: seq<string>, links: nat)
    requires comps != [] && links <= MAX_LINKS && !IsDot(comps[0]) && comps[0] != ".."
    requires var p := at + [comps[0]];
             p !in fs || fs[p].Other? || !Trusted(fs[p], euid) || (fs[p].Symlink? && links == MAX_LINKS)
    ensures !AcceptsFrom(fs, euid, at, comps, links)
  {
    var p := at + [comps[0]];
    if Resolve(fs, at, comps, links).Some? {
      assert p in Resolve(fs, at, comps, links).value.visited;
    }
  }

  lemma PassedDirectory(fs: FileSystem, euid: int, at: Path, comps: seq<string>, links: nat)
    requires comps != [] && links <= MAX_LINKS
    requires !IsDot(comps[0]) && comps[0] != ".." ==>
               IsDirectory(fs, at + [comps[0]]) && Trusted(fs[at + [comps[0]]], euid)
    ensures AcceptsFrom(fs, euid, at, comps, links) <==>
            AcceptsFrom(fs, euid, JoinPath(at, comps[0]), comps[1..], links)
  {
    if !IsDot(comps[0]) && comps[0] != ".." {
      var p := at + [comps[0]];
      VisitingTrusted(fs, euid, p, Resolve(fs, p, comps[1..], links));
    }
  }

  lemma ExpandedLink(fs: FileSystem, euid: int, at: Path, comps: seq<string>, links: nat,
                     target: string, base: Path, next: seq<string>)
    requires comps != [] && links < MAX_LINKS && !IsDot(comps[0]) && comps[0] != ".."
    requires var p := at + [comps[0]];
             p in fs && fs[p].Symlink? && fs[p].target == target && Trusted(fs[p], euid)
    requires base == (if IsAbsolute(target) then [] else at) && next == Components(target) + comps[1..]
    ensures AcceptsFrom(fs, euid, at, comps, links) <==> AcceptsFrom(fs, euid, base, next, links + 1)
  {
    var p := at + [comps[0]];
    ResolveAppend(fs, base, Components(target), comps[1..], links + 1);
    var inner := Resolve(fs, base, Components(target), links + 1);
    if inner.Some? {
      VisitingTrusted(fs, euid, p, After(inner.value, Resolve(fs, inner.value.at, comps[1..], inner.value.links)));
    }
  }

  lemma VisitingTrusted(fs: FileSystem, euid: int, p: Path, r: Option<Walked>)
    requires p in fs
    ensures r.Some? ==> (AllTrusted(fs, euid, Visiting(p, r).value.visited) <==>
                         Trusted(fs[p], euid) && AllTrusted(fs, euid, r.value.visited))
  {
    if r.Some? {
      assert p in Visiting(p, r).value.visited;
    }
  }

  /**
   Between two turns of the loop: everything above the resolved part has been checked, or the root is
   still to be looked at, and the verdict is left to what is pending.
   */
  ghost predicate Walking(fs: FileSystem, euid: int, verdict: bool, at: Path, comps: seq<string>, links: nat,
                          rootSeen: bool)
    requires links <= MAX_LINKS
  {
    && (if rootSeen then Guarded(fs, euid, at) else at == [] && comps != [] && comps[0] == "")
    && (verdict <==> RootTrusted(fs, euid) && AcceptsFrom(fs, euid, at, comps, links))
  }

  lemma WalkRefused(fs: FileSystem, euid: int, verdict: bool, at: Path, comps: seq<string>, links: nat, rootSeen: bool)
    requires links <= MAX_LINKS && comps != [] && Walking(fs, euid, verdict, at, comps, links, rootSeen)
    requires IsDot(comps[0]) || comps[0] == ".." ==> JoinPath(at, comps[0]) in fs
    requires var p := JoinPath(at, comps[0]);
             || p !in fs || fs[p].Other? || !Trusted(fs[p], euid)
             || (fs[p].Symlink? && links == MAX_LINKS && !IsDot(comps[0]) && comps[0] != "..")
    ensures !verdict
  {
    var p := JoinPath(at, comps[0]);
    if p in fs && (fs[p].Other? || !Trusted(fs[p], euid)) {
      Distrusted(fs, euid, at, comps, links, rootSeen);
    } else {
      RefusedEntry(fs, euid, at, comps, links);
    }
  }

  lemma WalkInto(fs: FileSystem, euid: int, verdict: bool, at: Path, comps: seq<string>, links: nat, rootSeen: bool,
                 p: Path)
    requires links <= MAX_LINKS && comps != [] && Walking(fs, euid, verdict, at, comps, links, rootSeen)
    requires p == JoinPath(at, comps[0]) && IsDirectory(fs, p) && Trusted(fs[p], euid)
    ensures Walking(fs, euid, verdict, p, comps[1..], links, true)
  {
    PassedDirectory(fs, euid, at, comps, links);
    GuardedExtends(fs, euid, at, p);
  }

  lemma WalkThrough(fs: FileSystem, euid: int, verdict: bool, at: Path, comps: seq<string>, links: nat, rootSeen: bool,
                    target: string, base: Path, next: seq<string>)
    requires links < MAX_LINKS && comps != [] && !IsDot(comps[0]) && comps[0] != ".."
    requires Walking(fs, euid, verdict, at, comps, links, rootSeen)
    requires var p := at + [comps[0]];
             p in fs && fs[p].Symlink? && fs[p].target == target && Trusted(fs[p], euid)
    requires base == (if IsAbsolute(target) then [] else at) && next == Components(target) + comps[1..]
    ensures Walking(fs, euid, verdict, base, next, links + 1, rootSeen)
  {
    GuardedRoot(fs, euid, at);
    ExpandedLink(fs, euid, at, comps, links, target, base, next);
  }

  lemma WalkDone(fs: FileSystem, euid: int, verdict: bool, at: Path, comps: seq<string>, links: nat, rootSeen: bool)
    requires links <= MAX_LINKS && comps == [] && Walking(fs, euid, verdict, at, comps, links, rootSeen)
    ensures verdict
  {
    GuardedRoot(fs, euid, at);
  }

  lemma GuardedExtends(fs: FileSystem, euid: int, at: Path, p: Path)
    requires IsDirectory(fs, p) && Trusted(fs[p], euid)
    requires p == [] || p == at || p == Parent(at) || (p != [] && Parent(p) == at)
    requires p == [] || Guarded(fs, euid, at)
    ensures Guarded(fs, euid, p)
  {
    forall i | 0 <= i <= |p| ensures IsDirectory(fs, p[..i]) && Trusted(fs[p[..i]], euid) {
      if i == |p| {
        assert p[..i] == p;
      } else {
        assert p[..i] == at[..i];
      }
    }
  }

  /** An entry that cannot be trusted ends the walk: dot and dot-dot only lead back to checked directories. */
  lemma Distrusted(fs: FileSystem, euid: int, at: Path, comps: seq<string>, links: nat, rootSeen: bool)
    requires comps != [] && links <= MAX_LINKS && JoinPath(at, comps[0]) in fs
    requires if rootSeen then Guarded(fs, euid, at) else at == [] && IsDot(comps[0])
    requires fs[JoinPath(at, comps[0])].Other? || !Trusted(fs[JoinPath(at, comps[0])], euid)
    ensures !(RootTrusted(fs, euid) && AcceptsFrom(fs, euid, at, comps, links))
  {
    if rootSeen {
      assert at[..|at|] == at;
      if at != [] {
        assert Parent(at) == at[..|at| - 1];
      }
      RefusedEntry(fs, euid, at, comps, links);
    }
  }

  /** What acceptance is for: the directory reached and every directory above it can be trusted. */
  lemma AcceptedDirectoryIsGuarded(fs: FileSystem, euid: int, dir: string)
    requires WellFormed(fs) && Accepts(fs, euid, dir)
    ensures Guarded(fs, euid, Resolve(fs, [], Components(dir), 0).value.at)
  {
    var root: Path := [];
    assert Guarded(fs, euid, root) by { assert root[..0] == root; }
    ResolveKeepsGuarded(fs, euid, [], Components(dir), 0);
  }

  lemma {:induction false} ResolveKeepsGuarded(fs: FileSystem, euid: int, at: Path, comps: seq<string>, links: nat)
    requires links <= MAX_LINKS && Guarded(fs, euid, at) && AcceptsFrom(fs, euid, at, comps, links)
    ensures Guarded(fs, euid, Resolve(fs, at, comps, links).value.at)
    decreases MAX_LINKS - links, |comps|
  {
    if comps != [] {
      if IsDot(comps[0]) {
        ResolveKeepsGuarded(fs, euid, at, comps[1..], links);
      } else if comps[0] == ".." {
        GuardedParent(fs, euid, at);
        ResolveKeepsGuarded(fs, euid, Parent(at), comps[1..], links);
      } else {
        var p := at + [comps[0]];
        assert p in Resolve(fs, at, comps, links).value.visited;
        if fs[p].Directory? {
          GuardedExtends(fs, euid, at, p);
          ResolveKeepsGuarded(fs, euid, p, comps[1..], links);
        } else {
          var base := if IsAbsolute(fs[p].target) then [] else at;
          assert Guarded(fs, euid, base) by { assert at[..0] == []; }
          ResolveKeepsGuarded(fs, euid, base, Components(fs[p].target), links + 1);
          var inner := Resolve(fs, base, Components(fs[p].target), links + 1).value;
          ResolveKeepsGuarded(fs, euid, inner.at, comps[1..], inner.links);
        }
      }
    }
  }

  lemma GuardedRoot(fs: FileSystem, euid: int, at: Path)
    requires Guarded(fs, euid, at)
    ensures Guarded(fs, euid, []) && RootTrusted(fs, euid)
  {
    assert at[..0] == [];
    GuardedExtends(fs, euid, at, []);
  }

  lemma GuardedParent(fs: FileSystem, euid: int, at: Path)
    requires Guarded(fs, euid, at)
    ensures Guarded(fs, euid, Parent(at))
  {
    forall i | 0 <= i <= |Parent(at)| ensures IsDirectory(fs, Parent(at)[..i]) && Trusted(fs[Parent(at)[..i]], euid) {
      assert Parent(at)[..i] == at[..i];
    }
  }

  /** What acceptance asks of each entry on the way, the root included. */
  ghost predicate IsSafe(e: Entry, euid: int) {
    match e
    case Directory(uid, openToOthers, sticky) => (uid == 0 || uid == euid) && (openToOthers ==> uid == 0 && sticky)
    case Symlink(uid, _) => uid == 0 || uid == euid
    case Other(uid) => uid == 0 || uid == euid
  }

  lemma AcceptsIff(fs: FileSystem, euid: int, dir: string)
    requires WellFormed(fs)
    ensures Accepts(fs, euid, dir) <==>
              var r := Resolve(fs, [], Components(dir), 0);
              && r.Some? && IsSafe(fs[[]], euid)
              && forall p | p in r.value.visited :: p in fs && IsSafe(fs[p], euid)
  {
    assert forall e: Entry :: Trusted(e, euid) <==> IsSafe(e, euid);
  }

  // ------------------------------------------------------------ chains of links

  function Name(k: nat): string { seq(k + 1, i => 'a') }

  /** A directory, and n links each of which names the one before it. */
  function Chain(n: nat, euid: int): FileSystem {
    map p: Path | p in ChainPaths(n) ::
      if p == [] || p == [Name(0)] then Directory(euid, false, false) else Symlink(euid, p[0][1..])
  }

  function ChainPaths(n: nat): set<Path> {
    (set k | 0 <= k <= n :: [Name(k)]) + {[]}
  }

  lemma NameIsOneComponent(k: nat)
    ensures Components(Name(k)) == [Name(k)] && !IsDot(Name(k)) && Name(k) != ".." && !IsAbsolute(Name(k))
    ensures Components("/" + Name(k)) == ["", Name(k)]
    ensures k > 0 ==> Name(k)[1..] == Name(k - 1)
  {
    assert Name(k)[0] == 'a';
    SplitJoin([Name(k)], '/');
    assert Join([Name(k)], '/') == Name(k);
    assert ["", Name(k)][1..] == [Name(k)];
    assert Join(["", Name(k)], '/') == "/" + Name(k);
    SplitJoin(["", Name(k)], '/');
  }

  lemma ChainEntry(n: nat, k: nat, euid: int)
    requires k <= n
    ensures var fs, p: Path := Chain(n, euid), [] + [Name(k)];
            && p in fs && p in ChainPaths(n)
            && fs[p] == if k == 0 then Directory(euid, false, false) else Symlink(euid, Name(k - 1))
  {
    var p: Path := [] + [Name(k)];
    assert p == [Name(k)] && p in ChainPaths(n);
    NameIsOneComponent(k);
    assert k > 0 ==> |Name(k)| != |Name(0)|;
  }

  lemma {:induction false} ChainResolves(n: nat, k: nat, links: nat, euid: int)
    requires k <= n && links <= 40
    ensures Resolve(Chain(n, euid), [], [Name(k)], links).Some? <==> links + k <= 40
    ensures links + k <= 40 ==> Resolve(Chain(n, euid), [], [Name(k)], links).value.visited <= ChainPaths(n)
    decreases k
  {
    NameIsOneComponent(k);
    ChainEntry(n, k, euid);
    assert [Name(k)][1..] == [];
    if k > 0 {
      NameIsOneComponent(k - 1);
      if links < 40 {
        ChainResolves(n, k - 1, links + 1, euid);
      }
    }
  }

  /** How many links may be followed: a directory behind n links is accepted if and only if n is at most forty. */
  lemma ChainIsAcceptedIff(n: nat, euid: int)
    ensures WellFormed(Chain(n, euid)) && (Accepts(Chain(n, euid), euid, "/" + Name(n)) <==> n <= 40)
  {
    ChainIsWellFormed(n, euid);
    NameIsOneComponent(n);
    ChainResolves(n, n, 0, euid);
    ChainIsTrusted(n, euid);
    LeadingSlash(Chain(n, euid), Name(n));
  }

  lemma LeadingSlash(fs: FileSystem, name: string)
    ensures Resolve(fs, [], ["", name], 0) == Resolve(fs, [], [name], 0)
  {
    assert ["", name][1..] == [name];
  }

  lemma ChainIsTrusted(n: nat, euid: int)
    ensures forall ps | ps <= ChainPaths(n) :: AllTrusted(Chain(n, euid), euid, ps)
    ensures RootTrusted(Chain(n, euid), euid)
  {
    var fs := Chain(n, euid);
    forall p | p in ChainPaths(n) ensures p in fs && Trusted(fs[p], euid) {
    }
  }

  lemma ChainIsWellFormed(n: nat, euid: int)
    ensures WellFormed(Chain(n, euid))
  {
    var fs := Chain(n, euid);
    forall p | p in fs && p != [] ensures IsDirectory(fs, Parent(p)) && !IsDot(p[|p| - 1]) && p[|p| - 1] != ".." {
      var k :| 0 <= k <= n && p == [Name(k)];
      NameIsOneComponent(k);
      assert Parent(p) == [];
    }
  }
}
