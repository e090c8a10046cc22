/** The walk over a Compose source and everything it extends
    (services/worker-manager/src/compose_runner.py): a depth-first search with
    one shared visited set, in which every file is checked against the path base
    the file that named it was given. */
module ComposeSources {

  // --------------------------------------------------------------------- paths

  /** A canonical absolute path, as its components. */
  type Path = seq<string>

  /** A path as written in a Compose file. */
  datatype Ref = Ref(absolute: bool, segments: seq<string>)

  function Normalise(at: Path, segments: seq<string>): Path
    decreases |segments|
  {
    if segments == [] then at
    else if segments[0] == "" || segments[0] == "." then Normalise(at, segments[1..])
    else if segments[0] == ".." then Normalise(Parent(at), segments[1..])
    else Normalise(at + [segments[0]], segments[1..])
  }

  function Resolve(base: Path, ref: Ref): Path {
    Normalise(if ref.absolute then [] else base, ref.segments)
  }

  function Parent(p: Path): Path {
    if p == [] then [] else p[..|p| - 1]
  }

  predicate Within(workspace: Path, p: Path) {
    workspace <= p
  }

  /** No segment is empty, a dot or two dots. */
  predicate Plain(segments: seq<string>) {
    forall i :: 0 <= i < |segments| ==> segments[i] != "" && segments[i] != "." && segments[i] != ".."
  }

  /** A path is followed segment by segment. */
  lemma {:induction false} NormaliseConcat(at: Path, a: seq<string>, b: seq<string>)
    ensures Normalise(at, a + b) == Normalise(Normalise(at, a), b)
    decreases |a|
  {
    if a == [] {
      assert a + b == b;
    } else {
      assert (a + b)[1..] == a[1..] + b;
      NormaliseConcat(
        if a[0] == "" || a[0] == "." then at else if a[0] == ".." then Parent(at) else at + [a[0]], a[1..], b);
    }
  }

  lemma {:induction false} NormalisePlain(at: Path, names: seq<string>)
    requires Plain(names)
    ensures Normalise(at, names) == at + names
    decreases |names|
  {
    if names != [] {
      NormalisePlain(at + [names[0]], names[1..]);
      assert at + [names[0]] + names[1..] == at + names;
    }
  }

  lemma {:induction false} OneSegment(start: Path, before: seq<string>, segment: string)
    requires segment == "" || segment == "." || segment == ".."
    ensures
      var at := Normalise(start, before);
      Normalise(start, before + [segment]) == if segment == ".." then Parent(at) else at
  {
    NormaliseConcat(start, before, [segment]);
    assert [segment][1..] == [];
  }

  /** What a written path stands for: an absolute one for itself, whatever the
      base, and a relative one for a place below the base. */
  lemma ResolveNames(base: Path, names: seq<string>)
    requires Plain(names)
    ensures Resolve(base, Ref(true, names)) == names
    ensures Resolve(base, Ref(false, names)) == base + names
  {
    NormalisePlain([], names);
    NormalisePlain(base, names);
    assert [] + names == names;
  }

  /** Empty segments and dots change nothing, names go down, and two dots go one
      up, but never above the root. */
  lemma ResolveSteps(base: Path, absolute: bool, before: seq<string>, names: seq<string>)
    requires Plain(names)
    ensures
      var at := Resolve(base, Ref(absolute, before));
      && Resolve(base, Ref(absolute, before + names)) == at + names
      && Resolve(base, Ref(absolute, before + [""])) == at
      && Resolve(base, Ref(absolute, before + ["."])) == at
      && Resolve(base, Ref(absolute, before + [".."])) == if at == [] then [] else at[..|at| - 1]
  {
    var start := if absolute then [] else base;
    NormaliseConcat(start, before, names);
    NormalisePlain(Normalise(start, before), names);
    OneSegment(start, before, "");
    OneSegment(start, before, ".");
    OneSegment(start, before, "..");
  }

  // --------------------------------------------------------------------- files

  /** A path-valued directive; only literal, non-empty ones are `literal`. */
  datatype Directive = Directive(ref: Ref, literal: bool)

  datatype Option<T> = None | Some(value: T)

  /** `paths` are env files, build contexts and the like; `forbidden` says the
      service uses something no source may use. */
  datatype Service = Service(extending: Option<Directive>, paths: seq<Directive>, forbidden: bool)

  /** `paths` of a document are its secret and config files. */
  datatype Content =
    | Broken
    | Document(wellShaped: bool, services: seq<Service>, paths: seq<Directive>)

  type Files = map<Path, Content>

  predicate DirectiveOk(d: Directive, base: Path, workspace: Path) {
    d.literal && Within(workspace, Resolve(base, d.ref))
  }

  predicate ServiceOk(s: Service, base: Path, workspace: Path) {
    && !s.forbidden
    && (forall i :: 0 <= i < |s.paths| ==> DirectiveOk(s.paths[i], base, workspace))
    && (s.extending.Some? ==> DirectiveOk(s.extending.value, base, workspace))
  }

  /** `validate_compose_file` for a document declared relative to `base`. */
  predicate DocumentOk(doc: Content, base: Path, workspace: Path)
    requires doc.Document?
  {
    && doc.wellShaped
    && (forall i :: 0 <= i < |doc.services| ==> ServiceOk(doc.services[i], base, workspace))
    && (forall i :: 0 <= i < |doc.paths| ==> DirectiveOk(doc.paths[i], base, workspace))
  }

  /** The document names this path: in a service, in the file a service extends,
      or as a secret or config file. */
  ghost predicate Names(doc: Content, d: Directive)
    requires doc.Document?
  {
    || d in doc.paths
    || exists s :: s in doc.services && (d in s.paths || s.extending == Some(d))
  }

  // -------------------------------------------------------------- specification

  /** A source together with the base its paths are resolved against. */
  datatype Context = Context(source: Path, base: Path)

  predicate Good(files: Files, workspace: Path, c: Context) {
    && Within(workspace, c.source)
    && c.source in files && files[c.source].Document?
    && DocumentOk(files[c.source], c.base, workspace)
  }

  function Target(base: Path, d: Directive): Context {
    var t := Resolve(base, d.ref);
    Context(t, Parent(t))
  }

  /** What a source must be, in so many words: in the workspace, a well-shaped
      document without anything forbidden, every path it names literal and in
      the workspace. */
  lemma GoodExactly(files: Files, workspace: Path, c: Context)
    ensures Good(files, workspace, c) <==>
              && workspace <= c.source
              && c.source in files && files[c.source].Document? && files[c.source].wellShaped
              && (forall s :: s in files[c.source].services ==> !s.forbidden)
              && (forall d :: Names(files[c.source], d) ==> d.literal && workspace <= Resolve(c.base, d.ref))
  {
    if c.source in files && files[c.source].Document? {
      var doc := files[c.source];
      forall i | 0 <= i < |doc.services|
        ensures doc.services[i] in doc.services
        ensures forall k :: 0 <= k < |doc.services[i].paths| ==> Names(doc, doc.services[i].paths[k])
        ensures doc.services[i].extending.Some? ==> Names(doc, doc.services[i].extending.value)
      {
        assert forall k :: 0 <= k < |doc.services[i].paths| ==> doc.services[i].paths[k] in doc.services[i].paths;
      }
      forall k | 0 <= k < |doc.paths| ensures Names(doc, doc.paths[k]) {
      }
    }
  }

  /** A path outside the workspace spoils the source that names it: an absolute
      one by where it is, a relative one by where its base puts it. */
  lemma OutsideIsRefused(files: Files, workspace: Path, c: Context, names: seq<string>)
    requires c.source in files && files[c.source].Document? && Plain(names)
    ensures Names(files[c.source], Directive(Ref(true, names), true)) && !(workspace <= names) ==>
              !Good(files, workspace, c)
    ensures Names(files[c.source], Directive(Ref(false, names), true)) && !(workspace <= c.base + names) ==>
              !Good(files, workspace, c)
  {
    GoodExactly(files, workspace, c);
    ResolveNames(c.base, names);
  }

  /** One `extends.file` edge. */
  predicate Extends(files: Files, from: Context, to: Context) {
    && from.source in files && files[from.source].Document?
    && exists i :: 0 <= i < |files[from.source].services|
                   && files[from.source].services[i].extending.Some?
                   && to == Target(from.base, files[from.source].services[i].extending.value)
  }

  /** Where it leads: to the file the path stands for, with that file's own
      directory as the base of everything in it. */
  lemma ExtendsLeadsTo(files: Files, c: Context, i: nat, names: seq<string>)
    requires c.source in files && files[c.source].Document? && i < |files[c.source].services|
    requires Plain(names) && names != []
    ensures
      var extending := files[c.source].services[i].extending;
      var file := |names| - 1;
      && (extending == Some(Directive(Ref(true, names), true)) ==>
            Extends(files, c, Context(names, names[..file])))
      && (extending == Some(Directive(Ref(false, names), true)) ==>
            Extends(files, c, Context(c.base + names, c.base + names[..file])))
  {
    ResolveNames(c.base, names);
    assert (c.base + names)[..|c.base + names| - 1] == c.base + names[..|names| - 1];
  }

  /** It leads nowhere else. */
  lemma ExtendsOnlyTo(files: Files, from: Context, to: Context)
    requires Extends(files, from, to)
    ensures
      exists i :: && 0 <= i < |files[from.source].services| && files[from.source].services[i].extending.Some?
                  && to.source == Resolve(from.base, files[from.source].services[i].extending.value.ref)
    ensures to.base == if to.source == [] then [] else to.source[..|to.source| - 1]
  {
  }

  predicate Chain(files: Files, p: seq<Context>) {
    forall i :: 0 <= i < |p| - 1 ==> Extends(files, p[i], p[i + 1])
  }

  ghost predicate Reachable(files: Files, a: Context, b: Context) {
    exists p :: |p| > 0 && p[0] == a && p[|p| - 1] == b && Chain(files, p)
  }

  lemma ReachableSelf(files: Files, a: Context)
    ensures Reachable(files, a, a)
  {
    var p := [a];
    assert p[0] == a && p[|p| - 1] == a && Chain(files, p);
  }

  lemma ReachableStep(files: Files, a: Context, b: Context, c: Context)
    requires Extends(files, a, b) && Reachable(files, b, c)
    ensures Reachable(files, a, c)
  {
    var p :| |p| > 0 && p[0] == b && p[|p| - 1] == c && Chain(files, p);
    var q := [a] + p;
    assert Chain(files, q);
    assert q[0] == a && q[|q| - 1] == c;
  }

  ghost predicate Closed(files: Files, s: set<Context>) {
    forall a, b :: a in s && Extends(files, a, b) ==> b in s
  }

  lemma {:induction false} ClosedContains(files: Files, s: set<Context>, p: seq<Context>)
    requires Closed(files, s) && |p| > 0 && p[0] in s && Chain(files, p)
    ensures p[|p| - 1] in s
  {
    if |p| > 1 {
      assert Extends(files, p[0], p[1]);
      forall i | 0 <= i < |p[1..]| - 1 ensures Extends(files, p[1..][i], p[1..][i + 1]) {
        assert Extends(files, p[i + 1], p[i + 2]);
      }
      ClosedContains(files, s, p[1..]);
    }
  }

  /** Every edge out of `c` ends in a visited context. */
  ghost predicate Covered(files: Files, c: Context, seen: set<Context>) {
    forall d :: Extends(files, c, d) ==> d in seen
  }

  /** All contexts visited since `before`, apart from `open`, are done with. */
  ghost predicate Finished(
      files: Files, workspace: Path, before: set<Context>, seen: set<Context>, open: set<Context>)
  {
    forall c :: c in seen && c !in before && c !in open ==> Good(files, workspace, c) && Covered(files, c, seen)
  }

  lemma FinishedChain(
      files: Files, workspace: Path, before: set<Context>, mid: set<Context>, seen: set<Context>, open: set<Context>)
    requires before <= mid <= seen && open <= mid
    requires Finished(files, workspace, before, mid, open) && Finished(files, workspace, mid, seen, {})
    ensures Finished(files, workspace, before, seen, open)
  {
    forall c | c in seen && c !in before && c !in open
      ensures Good(files, workspace, c) && Covered(files, c, seen)
    {
      if c in mid {
        assert Covered(files, c, mid);
      }
    }
  }

  /** All contexts a walk can ever stand in, apart from where it starts. */
  function Standing(files: Files): set<Context> {
    set t | t in files :: Context(t, Parent(t))
  }

  lemma StandingShrinks(files: Files, context: Context, target: Context, before: set<Context>, seen: set<Context>)
    requires before + {context} <= seen && context !in before
    requires target.source in files && target.base == Parent(target.source)
    ensures Standing(files) + {target} - seen < Standing(files) + {context} - before
  {
    assert target in Standing(files);
    assert context in Standing(files) + {context} - before;
    assert context !in Standing(files) + {target} - seen;
  }

  // -------------------------------------------------------------------- the walk

  class SourceWalk {
    var seen: set<Context>

    constructor ()
      ensures seen == {}
    {
      seen := {};
    }

    /** Validate one source and, depth first, everything it extends. False
        stands for the exception. It terminates on every finite set of files,
        with cycles and shared targets, because a context is entered once. */
    method ValidateSourceTree(files: Files, workspace: Path, source: Path, base: Path)
      returns (ok: bool)
      modifies this
      ensures old(seen) <= seen
      ensures ok ==> Context(source, base) in seen && Finished(files, workspace, old(seen), seen, {})
      ensures !ok ==> exists c :: Reachable(files, Context(source, base), c) && !Good(files, workspace, c)
      decreases if source in files then Standing(files) + {Context(source, base)} - seen else {},
                if source in files then 1 else 0
    {
      var context := Context(source, base);
      ReachableSelf(files, context);
      if !Within(workspace, source) {
        return false;
      }
      if context in seen {
        return true;
      }
      ghost var before := seen;
      seen := seen + {context};
      if source !in files || files[source].Broken? || !DocumentOk(files[source], base, workspace) {
        return false;
      }
      var services := files[source].services;
      for i := 0 to |services|
        invariant before + {context} <= seen
        invariant Finished(files, workspace, before, seen, {context})
        invariant forall j :: 0 <= j < i && services[j].extending.Some? ==>
                    Target(base, services[j].extending.value) in seen
      {
        if services[i].extending.Some? {
          var target := Target(base, services[i].extending.value);
          ghost var mid := seen;
          assert Extends(files, context, target);
          if target.source in files {
            StandingShrinks(files, context, target, before, seen);
          }
          assert context in Standing(files) + {context} - before;
          var below := ValidateSourceTree(files, workspace, target.source, target.base);
          if !below {
            ghost var c :| Reachable(files, target, c) && !Good(files, workspace, c);
            ReachableStep(files, context, target, c);
            return false;
          }
          FinishedChain(files, workspace, before, mid, seen, {context});
        }
      }
      assert Good(files, workspace, context) && Covered(files, context, seen);
      return true;
    }
  }

  /** A walk that finished has been everywhere. */
  lemma FinishedWalk(files: Files, workspace: Path, root: Context, seen: set<Context>)
    requires root in seen && Finished(files, workspace, {}, seen, {})
    ensures forall c :: Reachable(files, root, c) ==> Good(files, workspace, c)
  {
    assert Closed(files, seen) by {
      forall a, b | a in seen && Extends(files, a, b) ensures b in seen {
        assert Covered(files, a, seen);
      }
    }
    forall c | Reachable(files, root, c) ensures Good(files, workspace, c) {
      var p :| |p| > 0 && p[0] == root && p[|p| - 1] == c && Chain(files, p);
      ClosedContains(files, seen, p);
    }
  }

  /** The source names this absolute path. */
  ghost predicate NamesAbsolute(files: Files, source: Path, names: seq<string>) {
    && source in files && files[source].Document? && Plain(names)
    && Names(files[source], Directive(Ref(true, names), true))
  }

  lemma AbsoluteStaysInside(files: Files, workspace: Path, root: Context, names: seq<string>)
    requires forall c :: Reachable(files, root, c) ==> Good(files, workspace, c)
    requires NamesAbsolute(files, root.source, names)
    ensures workspace <= names
  {
    ReachableSelf(files, root);
    OutsideIsRefused(files, workspace, root, names);
  }

  /** The admission of every selected source, as `_prepare_invocation` runs it:
      a fresh visited set per source, all against the project directory. It
      succeeds if and only if every context reachable from a selected source
      lies in the workspace and passes validation with its own base. */
  method AdmitSources(files: Files, workspace: Path, sources: seq<Path>, projectDirectory: Path)
    returns (ok: bool)
    ensures ok <==> forall i, c :: 0 <= i < |sources|
                      && Reachable(files, Context(sources[i], projectDirectory), c)
                      ==> Good(files, workspace, c)
    ensures forall i, names :: 0 <= i < |sources| && NamesAbsolute(files, sources[i], names) && ok ==>
              workspace <= names
  {
    for i := 0 to |sources|
      invariant forall j, c :: 0 <= j < i
                  && Reachable(files, Context(sources[j], projectDirectory), c)
                  ==> Good(files, workspace, c)
    {
      var walk := new SourceWalk();
      var one := walk.ValidateSourceTree(files, workspace, sources[i], projectDirectory);
      if !one {
        return false;
      }
      FinishedWalk(files, workspace, Context(sources[i], projectDirectory), walk.seen);
    }
    forall i, names | 0 <= i < |sources| && NamesAbsolute(files, sources[i], names) ensures workspace <= names {
      AbsoluteStaysInside(files, workspace, Context(sources[i], projectDirectory), names);
    }
    return true;
  }

  // ------------------------------------------------------------- consequences

  /** What admission buys: no path that any source Compose will read names,
      whatever for, leaves the workspace or depends on interpolation, and no
      service in them uses anything forbidden. */
  lemma AdmittedPathsStayInside(files: Files, workspace: Path, root: Context, c: Context)
    requires forall d :: Reachable(files, root, d) ==> Good(files, workspace, d)
    requires Reachable(files, root, c)
    ensures workspace <= c.source
    ensures c.source in files && files[c.source].Document? && files[c.source].wellShaped
    ensures forall d :: Names(files[c.source], d) ==> d.literal && workspace <= Resolve(c.base, d.ref)
    ensures forall s :: s in files[c.source].services ==> !s.forbidden
  {
    GoodExactly(files, workspace, c);
  }

  /** The base matters: the same file can pass under one base and fail under
      another, so visited files must be told apart by their base. */
  lemma SameFileTwoBases()
    ensures
      var up := Directive(Ref(false, ["..", "data"]), true);
      var files: Files := map[["ws", "a.yml"] := Document(true, [Service(None, [up], false)], [])];
      && !Good(files, ["ws"], Context(["ws", "a.yml"], ["ws"]))
      && Good(files, ["ws"], Context(["ws", "a.yml"], ["ws", "sub"]))
  {
    var up := Directive(Ref(false, ["..", "data"]), true);
    var service := Service(None, [up], false);
    var doc := Document(true, [service], []);
    var segments := up.ref.segments;
    assert segments[1..] == ["data"] && ["data"][1..] == [];
    assert Normalise([], ["data"]) == Normalise([] + ["data"], []);
    assert Resolve(["ws"], up.ref) == ["data"] by {
      assert Parent(["ws"]) == [];
    }
    assert Resolve(["ws", "sub"], up.ref) == ["ws", "data"] by {
      assert Parent(["ws", "sub"]) == ["ws"];
    }
    assert service.paths[0] == up && doc.services[0] == service;
    assert !DirectiveOk(up, ["ws"], ["ws"]) && DirectiveOk(up, ["ws", "sub"], ["ws"]);
  }
}
