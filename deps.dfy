/** scripts/deps.js: `deps update name[@version]...` bumps each named
    dependency in every project that pins it, one `npm i` per project and
    dependency kind, and optionally commits the manifest and lockfile.

    The project roots, their manifests, the command line and what each
    `git status -s` prints are inputs; the commands the script runs are
    returned as a list of effects. */
module Deps {
  import opened Wrappers
  import opened Strings
  import opened Grouping
  import opened Manifests
  import opened Chains

  // ---------------------------------------------------------------------
  // Specifiers: /^(.+?)(?:@(.+?))?$/ with `version = 'latest'`

  datatype Spec = Spec(name: string, version: string)

  /** Whether the optional `@version` group and `$` can match from index `k`:
      nothing is left, or an `@` followed by at least one character. */
  predicate SplitsAt(s: string, k: nat)
    requires k <= |s|
  {
    k == |s| || VersionAt(s, k)
  }

  /** An `@` at index `k` with at least one character after it. */
  predicate VersionAt(s: string, k: nat)
    requires k < |s|
  {
    s[k] == '@' && k + 1 < |s|
  }

  /** The lazy `(.+?)` stops at the first index from `k` on where the rest can match. */
  function SplitIndex(s: string, k: nat): (r: nat)
    requires 1 <= k <= |s|
    ensures k <= r <= |s| && SplitsAt(s, r)
    ensures forall j :: k <= j < r ==> !VersionAt(s, j)
    decreases |s| - k
  {
    if SplitsAt(s, k) then k else SplitIndex(s, k + 1)
  }

  predicate HasLineTerminator(s: string) {
    exists i :: 0 <= i < |s| && IsLineTerminator(s[i])
  }

  /** `/^(.+?)(?:@(.+?))?$/.exec(dep)`; `None` when it does not match (the
      empty string, or a line terminator that `.` refuses), where the
      destructuring assignment throws. */
  function ParseSpec(dep: string): (r: Option<Spec>)
    ensures r.Some? <==> dep != "" && !HasLineTerminator(dep)
    ensures r.Some? ==> r.value.name != "" && StartsWith(dep, r.value.name)
    ensures r.Some? ==> forall j :: 1 <= j < |r.value.name| ==> !VersionAt(dep, j)
    ensures r.Some? && r.value.name != dep ==> dep == r.value.name + "@" + r.value.version
    ensures r.Some? && r.value.name != dep ==> VersionAt(dep, |r.value.name|) && r.value.version != ""
    ensures r.Some? && r.value.name == dep ==> r.value.version == "latest"
  {
    if dep == "" || HasLineTerminator(dep) then None
    else
      var k := SplitIndex(dep, 1);
      Some(Spec(dep[..k], if k == |dep| then "latest" else dep[k + 1..]))
  }

  /** A specifier ending in `@` has no version: the `@` stays in the name. */
  lemma ParseTrailingAt(name: string)
    requires name != "" && !HasLineTerminator(name)
    requires forall j :: 1 <= j < |name| ==> name[j] != '@'
    ensures ParseSpec(name + "@") == Some(Spec(name + "@", "latest"))
  {
    var s := name + "@";
    assert !HasLineTerminator(s) by {
      forall i | 0 <= i < |s|
        ensures !IsLineTerminator(s[i])
      {
        if i < |name| {
          assert s[i] == name[i];
        }
      }
    }
    forall j | 1 <= j < |s|
      ensures !VersionAt(s, j)
    {
      if j < |name| {
        assert s[j] == name[j];
      }
    }
    assert s[..|s|] == s;
  }

  /** An install argument `name@version` parses back to its name and version
      whenever the name has no `@` after its first character. */
  lemma ParseInstallArg(name: string, version: string)
    requires name != "" && version != ""
    requires !HasLineTerminator(name) && !HasLineTerminator(version)
    requires forall j :: 1 <= j < |name| ==> name[j] != '@'
    ensures ParseSpec(name + "@" + version) == Some(Spec(name, version))
  {
    var s := name + "@" + version;
    assert !HasLineTerminator(s) by {
      forall i | 0 <= i < |s|
        ensures !IsLineTerminator(s[i])
      {
        if i < |name| {
          assert s[i] == name[i];
        } else if i > |name| {
          assert s[i] == version[i - |name| - 1];
        }
      }
    }
    forall j | 1 <= j < |name|
      ensures !VersionAt(s, j)
    {
      assert s[j] == name[j];
    }
    assert SplitsAt(s, |name|);
    var k := SplitIndex(s, 1);
    assert k == |name|;
    assert s[..k] == name;
    assert s[k + 1..] == version;
  }

  // ---------------------------------------------------------------------
  // Collecting the work

  datatype Task = Task(pkg: string, name: string, key: string, mode: string,
                       root: string, prev: string, next: string)

  datatype UpdateError =
    | UnknownCommand(message: string)
    | UnreadableManifest(root: string)
    | MalformedSpecifier(dep: string)

  /** `pkg.name` as an object key: a missing name becomes "undefined". */
  function PkgKey(m: Manifest): string {
    m.name.GetOr("undefined")
  }

  /** `dependencies[name] && dependencies[name] !== '*'` */
  predicate Pinned(m: Manifest, kind: DepKind, name: string) {
    var deps := DependencyMap(m, kind);
    name in deps && deps[name] != "" && deps[name] != "*"
  }

  function KindTask(root: string, m: Manifest, sp: Spec, kind: DepKind): seq<Task> {
    if Pinned(m, kind, sp.name)
    then [Task(PkgKey(m), sp.name, kind.Key(), kind.Mode(), root, DependencyMap(m, kind)[sp.name], sp.version)]
    else []
  }

  /** The tasks for one root and one specifier: `dependencies` before `devDependencies`. */
  function SpecTasks(root: string, m: Manifest, sp: Spec): seq<Task> {
    KindTask(root, m, sp, Runtime) + KindTask(root, m, sp, Development)
  }

  /** The tasks for one root and one command-line argument, which must parse. */
  function DepTasks(root: string, m: Manifest, dep: string): Result<seq<Task>, UpdateError> {
    match ParseSpec(dep)
    case None => Err(MalformedSpecifier(dep))
    case Some(sp) => Ok(SpecTasks(root, m, sp))
  }

  /** The tasks for one root, specifier by specifier; the first specifier
      that does not parse throws. */
  function RootTasks(root: string, m: Manifest, deps: seq<string>): Result<seq<Task>, UpdateError> {
    Chain(deps, dep => DepTasks(root, m, dep))
  }

  /** Reading a root's manifest: one that is not there throws. */
  function RootOutcome(root: string, manifests: map<string, Manifest>, deps: seq<string>): Result<seq<Task>, UpdateError> {
    if root !in manifests then Err(UnreadableManifest(root))
    else RootTasks(root, manifests[root], deps)
  }

  /** The `work` list, root by root. */
  function Collect(roots: seq<string>, manifests: map<string, Manifest>, deps: seq<string>): Result<seq<Task>, UpdateError> {
    Chain(roots, root => RootOutcome(root, manifests, deps))
  }

  const Kinds: seq<DepKind> := [Runtime, Development]

  /** The innermost loop of `update`: one task per dependency kind that pins the name. */
  method SpecWork(root: string, pkg: Manifest, sp: Spec) returns (work: seq<Task>)
    ensures work == SpecTasks(root, pkg, sp)
  {
    work := [];
    for k := 0 to |Kinds|
      invariant work == (if k == 0 then [] else if k == 1 then KindTask(root, pkg, sp, Runtime) else SpecTasks(root, pkg, sp))
    {
      var kind := Kinds[k];
      var dependencies := DependencyMap(pkg, kind);
      if sp.name in dependencies && dependencies[sp.name] != "" && dependencies[sp.name] != "*" {
        work := work + [Task(PkgKey(pkg), sp.name, kind.Key(), kind.Mode(), root, dependencies[sp.name], sp.version)];
      }
    }
  }

  /** The loop over the command-line arguments for one root. */
  method RootWork(root: string, pkg: Manifest, deps: seq<string>) returns (outcome: Result<seq<Task>, UpdateError>)
    ensures outcome == RootTasks(root, pkg, deps)
  {
    var work: seq<Task> := [];
    for j := 0 to |deps|
      invariant RootTasks(root, pkg, deps[..j]) == Ok(work)
    {
      var dep := deps[j];
      var parsed := ParseSpec(dep);
      if parsed.None? {
        ChainStepErr(deps, dep => DepTasks(root, pkg, dep), j, MalformedSpecifier(dep));
        return Err(MalformedSpecifier(dep));
      }
      var specWork := SpecWork(root, pkg, parsed.value);
      ChainStep(deps, dep => DepTasks(root, pkg, dep), j, work, specWork);
      work := work + specWork;
    }
    assert deps[..|deps|] == deps;
    return Ok(work);
  }

  /** The nested loops of `update` that fill `work`. */
  method CollectTasks(roots: seq<string>, manifests: map<string, Manifest>, deps: seq<string>)
    returns (outcome: Result<seq<Task>, UpdateError>)
    ensures outcome == Collect(roots, manifests, deps)
  {
    var work: seq<Task> := [];
    for i := 0 to |roots|
      invariant Collect(roots[..i], manifests, deps) == Ok(work)
    {
      var root := roots[i];
      if root !in manifests {
        ChainStepErr(roots, r => RootOutcome(r, manifests, deps), i, UnreadableManifest(root));
        return Err(UnreadableManifest(root));
      }
      var rootWork := RootWork(root, manifests[root], deps);
      if rootWork.Err? {
        ChainStepErr(roots, r => RootOutcome(r, manifests, deps), i, rootWork.error);
        return Err(rootWork.error);
      }
      ChainStep(roots, r => RootOutcome(r, manifests, deps), i, work, rootWork.value);
      work := work + rootWork.value;
    }
    assert roots[..|roots|] == roots;
    return Ok(work);
  }

  // ---------------------------------------------------------------------
  // What the collected work holds

  /** The task agrees with the manifest of its root for dependency kind `kind`. */
  predicate MatchesManifest(t: Task, m: Manifest, kind: DepKind) {
    && t.key == kind.Key()
    && t.mode == kind.Mode()
    && t.pkg == PkgKey(m)
    && Pinned(m, kind, t.name)
    && t.prev == DependencyMap(m, kind)[t.name]
  }

  /** A task is justified by the inputs: its root was listed, its manifest pins
      its name under its kind with its `prev`, and a requested specifier
      asks for its name at its `next`. */
  predicate Justified(t: Task, roots: seq<string>, manifests: map<string, Manifest>, deps: seq<string>) {
    && t.root in roots
    && t.root in manifests
    && (MatchesManifest(t, manifests[t.root], Runtime) || MatchesManifest(t, manifests[t.root], Development))
    && exists d :: d in deps && ParseSpec(d) == Some(Spec(t.name, t.next))
  }

  /** One root's tasks are collected exactly when every argument parses. */
  lemma RootTasksOk(root: string, m: Manifest, deps: seq<string>)
    ensures RootTasks(root, m, deps).Ok? <==> forall d :: d in deps ==> ParseSpec(d).Some?
  {
    var step := dep => DepTasks(root, m, dep);
    ChainOk(deps, step);
    if !RootTasks(root, m, deps).Ok? {
      var i :| 0 <= i < |deps| && !step(deps[i]).Ok?;
      assert ParseSpec(deps[i]).None?;
    }
  }

  /** The collection fails exactly when a listed root has no manifest, or
      there is a root and some argument does not parse. */
  lemma CollectFails(roots: seq<string>, manifests: map<string, Manifest>, deps: seq<string>)
    ensures Collect(roots, manifests, deps).Err? <==>
      (exists r :: r in roots && r !in manifests) ||
      (roots != [] && exists d :: d in deps && ParseSpec(d).None?)
  {
    var step := root => RootOutcome(root, manifests, deps);
    ChainOk(roots, step);
    forall r | r in manifests {
      RootTasksOk(r, manifests[r], deps);
    }
    if Collect(roots, manifests, deps).Err? {
      var i :| 0 <= i < |roots| && !step(roots[i]).Ok?;
      assert roots[i] in roots;
    } else if roots != [] {
      assert step(roots[0]).Ok?;
    }
  }

  /** What one argument's tasks are made of. */
  lemma SpecTasksSound(root: string, m: Manifest, sp: Spec, t: Task)
    requires t in SpecTasks(root, m, sp)
    ensures t.root == root && t.name == sp.name && t.next == sp.version
    ensures MatchesManifest(t, m, Runtime) || MatchesManifest(t, m, Development)
  {
  }

  lemma RootTasksSound(root: string, m: Manifest, deps: seq<string>, t: Task)
    requires RootTasks(root, m, deps).Ok? && t in RootTasks(root, m, deps).value
    ensures t.root == root && (MatchesManifest(t, m, Runtime) || MatchesManifest(t, m, Development))
    ensures exists d :: d in deps && ParseSpec(d) == Some(Spec(t.name, t.next))
  {
    var step := dep => DepTasks(root, m, dep);
    ChainMembers(deps, step, t);
    var i :| 0 <= i < |deps| && step(deps[i]).Ok? && t in step(deps[i]).value;
    var sp := ParseSpec(deps[i]).value;
    SpecTasksSound(root, m, sp, t);
    assert deps[i] in deps;
  }

  /** Every recorded task is justified by the inputs. */
  lemma TasksSound(roots: seq<string>, manifests: map<string, Manifest>, deps: seq<string>, t: Task)
    requires Collect(roots, manifests, deps).Ok? && t in Collect(roots, manifests, deps).value
    ensures Justified(t, roots, manifests, deps)
  {
    var step := root => RootOutcome(root, manifests, deps);
    ChainMembers(roots, step, t);
    var i :| 0 <= i < |roots| && step(roots[i]).Ok? && t in step(roots[i]).value;
    RootTasksSound(roots[i], manifests[roots[i]], deps, t);
  }

  /** Every pinned (root, requested name, kind) gets its task: with the
      manifest's version as `prev` and the requested version as `next`. */
  lemma TasksComplete(roots: seq<string>, manifests: map<string, Manifest>, deps: seq<string>,
                      root: string, d: string, kind: DepKind)
    requires Collect(roots, manifests, deps).Ok?
    requires root in roots && d in deps
    ensures root in manifests && ParseSpec(d).Some?
    ensures Pinned(manifests[root], kind, ParseSpec(d).value.name) ==>
      Task(PkgKey(manifests[root]), ParseSpec(d).value.name, kind.Key(), kind.Mode(), root,
           DependencyMap(manifests[root], kind)[ParseSpec(d).value.name], ParseSpec(d).value.version)
        in Collect(roots, manifests, deps).value
  {
    var rootStep := r => RootOutcome(r, manifests, deps);
    var i :| 0 <= i < |roots| && roots[i] == root;
    ChainOk(roots, rootStep);
    assert rootStep(roots[i]).Ok?;
    var m := manifests[root];
    var depStep := dep => DepTasks(root, m, dep);
    var j :| 0 <= j < |deps| && deps[j] == d;
    ChainOk(deps, depStep);
    assert depStep(deps[j]).Ok?;
    var sp := ParseSpec(d).value;
    if Pinned(m, kind, sp.name) {
      var t := KindTask(root, m, sp, kind)[0];
      assert t in depStep(deps[j]).value;
      ChainMembers(deps, depStep, t);
      ChainMembers(roots, rootStep, t);
    }
  }

  /** Roots are outermost: the work for `a + b` is the work for `a` followed by the work for `b`. */
  lemma CollectAppend(a: seq<string>, b: seq<string>, manifests: map<string, Manifest>, deps: seq<string>)
    requires Collect(a, manifests, deps).Ok? && Collect(b, manifests, deps).Ok?
    ensures Collect(a + b, manifests, deps) == Ok(Collect(a, manifests, deps).value + Collect(b, manifests, deps).value)
  {
    ChainAppend(a, b, root => RootOutcome(root, manifests, deps));
  }

  /** Within a root, requested dependencies come in command-line order. */
  lemma RootTasksAppend(root: string, m: Manifest, a: seq<string>, b: seq<string>)
    requires RootTasks(root, m, a).Ok? && RootTasks(root, m, b).Ok?
    ensures RootTasks(root, m, a + b) == Ok(RootTasks(root, m, a).value + RootTasks(root, m, b).value)
  {
    ChainAppend(a, b, dep => DepTasks(root, m, dep));
  }

  /** A requested name that a root's manifest does not pin (absent, empty or
      `*` in both maps) adds no task for that root. */
  lemma UnpinnedAddsNothing(root: string, m: Manifest, sp: Spec)
    requires !Pinned(m, Runtime, sp.name) && !Pinned(m, Development, sp.name)
    ensures SpecTasks(root, m, sp) == []
  {
  }

  /** One task per kind that pins the name, the `dependencies` one first. */
  lemma SpecTasksOrder(root: string, m: Manifest, sp: Spec)
    ensures |SpecTasks(root, m, sp)| == (if Pinned(m, Runtime, sp.name) then 1 else 0) + (if Pinned(m, Development, sp.name) then 1 else 0)
    ensures forall i, j :: 0 <= i < j < |SpecTasks(root, m, sp)| ==>
      SpecTasks(root, m, sp)[i].key == "dependencies" && SpecTasks(root, m, sp)[j].key == "devDependencies"
  {
  }

  // ---------------------------------------------------------------------
  // Running the work

  datatype Flags = Flags(dryrun: bool, commit: bool)

  /** What the script does to the outside world, in order. */
  datatype Effect =
    | Log(text: string)
      /** `cd root; npm i packages mode`, with `--no-workspaces` when `isolated` */
    | Install(root: string, packages: seq<string>, mode: string, isolated: bool)
      /** `cd root; git status -s`, and what it printed */
    | Status(root: string, stdout: string)
      /** `git add package.json package-lock.json; git commit -m message` */
    | Commit(root: string, message: string)

  function PkgOf(t: Task): string { t.pkg }
  function KeyOf(t: Task): string { t.key }

  function LogLine(t: Task): string { "    " + t.name + ": " + t.prev + " -> " + t.next }
  function InstallArg(t: Task): string { t.name + "@" + t.next }
  function CommitItem(t: Task): string { t.name + "[" + t.prev + "->" + t.next + "]" }

  function LogLines(ts: seq<Task>): seq<string> { seq(|ts|, i requires 0 <= i < |ts| => LogLine(ts[i])) }
  function InstallArgs(ts: seq<Task>): seq<string> { seq(|ts|, i requires 0 <= i < |ts| => InstallArg(ts[i])) }
  function CommitItems(ts: seq<Task>): seq<string> { seq(|ts|, i requires 0 <= i < |ts| => CommitItem(ts[i])) }
  function CommitMessage(ts: seq<Task>): string { "deps: " + Join(CommitItems(ts), ", ") }

  /** `diff.stdout.match('package.json') || diff.stdout.match('package-lock.json')`:
      both strings become regular expressions, so `.` matches any character. */
  predicate IsDirty(stdout: string) {
    DotMatch(stdout, "package.json") || DotMatch(stdout, "package-lock.json")
  }

  /** The inner loop's body for one (package, dependency kind) group: the
      group's report, then what running it does; its place `n` among all
      groups picks what `git status -s` prints for it. `groupBy` never makes
      an empty group (`Grouping.GroupedNonEmpty`); one would make `deps[0]`
      throw, and it is given no effects here. */
  function KeyGroupEffects(kg: (string, seq<Task>), f: Flags, status: nat -> string, n: nat): seq<Effect> {
    var ts := kg.1;
    if ts == [] then []
    else
      [Log("  " + kg.0 + ":"), Log(Join(LogLines(ts), "\n"))]
      + InstallEffects(ts[0].root, InstallArgs(ts), ts[0].mode, CommitMessage(ts), f, status(n))
  }

  /** What follows the report of a group: both installs unless `--dryrun`,
      then with `--commit` the status check and, when it shows a manifest,
      the commit. */
  function InstallEffects(root: string, args: seq<string>, mode: string, message: string,
                          f: Flags, stdout: string): seq<Effect>
  {
    if f.dryrun then []
    else [Install(root, args, mode, true), Install(root, args, mode, false)]
         + (if !f.commit then []
            else [Status(root, stdout)] + (if IsDirty(stdout) then [Commit(root, message)] else []))
  }

  /** A package's tasks grouped by dependency kind. */
  type KindGroups = seq<(string, seq<Task>)>

  /** A kind group takes one place in the numbering of the groups. */
  function KindSize(kg: (string, seq<Task>)): nat { 1 }

  /** A package takes one place per kind group. */
  function PkgSize(g: (string, KindGroups)): nat { |g.1| }

  /** One pass of the outer loop: the package header, then its kind groups,
      numbered on from `n`. */
  function PkgEffects(g: (string, KindGroups), f: Flags, status: nat -> string, n: nat): seq<Effect> {
    [Log("[" + g.0 + "]:")] + Spread(g.1, KindSize, (kg, k) => KeyGroupEffects(kg, f, status, k), n)
  }

  /** The two levels of `groupBy` in `update`: each package's tasks grouped again by kind. */
  function Nest(pgs: seq<(string, seq<Task>)>): seq<(string, KindGroups)> {
    seq(|pgs|, i requires 0 <= i < |pgs| => (pgs[i].0, Grouped(KeyOf, pgs[i].1)))
  }

  /** The work grouped by package, then by dependency kind. */
  function WorkGroups(work: seq<Task>): seq<(string, KindGroups)> {
    Nest(Grouped(PkgOf, work))
  }

  /** The effects of running the collected work. */
  function WorkEffects(work: seq<Task>, f: Flags, status: nat -> string): seq<Effect> {
    Spread(WorkGroups(work), PkgSize, (g, k) => PkgEffects(g, f, status, k), 0)
  }

  /** The number of (package, kind) groups the work falls into. */
  function GroupCount(work: seq<Task>): nat {
    Total(WorkGroups(work), PkgSize)
  }

  /** No kind group of any package is empty. */
  predicate NestedNonEmpty(ngs: seq<(string, KindGroups)>) {
    forall i :: 0 <= i < |ngs| ==> NonEmptyGroups(ngs[i].1)
  }

  lemma WorkGroupsNonEmpty(work: seq<Task>)
    ensures NestedNonEmpty(WorkGroups(work))
  {
    var pgs := Grouped(PkgOf, work);
    forall i | 0 <= i < |pgs|
      ensures NonEmptyGroups(Nest(pgs)[i].1)
    {
      GroupedNonEmpty(KeyOf, pgs[i].1);
    }
  }

  function UpdateSpec(roots: seq<string>, manifests: map<string, Manifest>, deps: seq<string>,
                      f: Flags, status: nat -> string): Result<seq<Effect>, UpdateError>
  {
    match Collect(roots, manifests, deps)
    case Err(e) => Err(e)
    case Ok(work) => Ok(WorkEffects(work, f, status))
  }

  /** The body of the inner loop of `update`: report one (package, kind)
      group, install it twice, and commit when `git status -s` shows a manifest. */
  method RunKeyGroup(key: string, ts: seq<Task>, f: Flags, status: nat -> string, n: nat)
    returns (effects: seq<Effect>)
    requires ts != []
    ensures effects == KeyGroupEffects((key, ts), f, status, n)
  {
    var root, mode := ts[0].root, ts[0].mode;
    var log := LogLines(ts);
    var next := InstallArgs(ts);
    effects := [Log("  " + key + ":"), Log(Join(log, "\n"))];
    if f.dryrun {
      return;
    }
    effects := effects + [Install(root, next, mode, true), Install(root, next, mode, false)];
    if !f.commit {
      return;
    }
    var stdout := status(n);
    effects := effects + [Status(root, stdout)];
    var isDirty := DotMatch(stdout, "package.json") || DotMatch(stdout, "package-lock.json");
    if !isDirty {
      return;
    }
    var message := CommitMessage(ts);
    effects := effects + [Commit(root, message)];
  }

  /** One step of the inner loop: running kind group `j` moves it from what
      is left to what is done. */
  lemma KindLoopStep(kgs: KindGroups, f: Flags, status: nat -> string, j: nat, n: nat,
                     done: seq<Effect>, out: seq<Effect>)
    requires j < |kgs| && out == KeyGroupEffects(kgs[j], f, status, n)
    ensures done + Spread(kgs[j..], KindSize, (kg, k) => KeyGroupEffects(kg, f, status, k), n)
         == (done + out) + Spread(kgs[j + 1..], KindSize, (kg, k) => KeyGroupEffects(kg, f, status, k), n + 1)
  {
    var step := (kg, k) => KeyGroupEffects(kg, f, status, k);
    SpreadAt(kgs, KindSize, step, j, n);
    AppendAssoc(done, out, Spread(kgs[j + 1..], KindSize, step, n + 1));
  }

  /** One pass of the outer loop of `update`: the package header, then its
      tasks grouped by dependency kind; `n` counts the groups run so far. */
  method RunPackage(group: (string, seq<Task>), f: Flags, status: nat -> string, n: nat)
    returns (effects: seq<Effect>, n': nat)
    ensures effects == PkgEffects((group.0, Grouped(KeyOf, group.1)), f, status, n)
    ensures n' == n + |Grouped(KeyOf, group.1)|
  {
    effects := [Log("[" + group.0 + "]:")];
    var keyGroups := GroupBy(KeyOf, group.1);
    GroupedNonEmpty(KeyOf, group.1);
    n' := n;
    for j := 0 to |keyGroups|
      invariant n' == n + j
      invariant effects + Spread(keyGroups[j..], KindSize, (kg, k) => KeyGroupEffects(kg, f, status, k), n')
             == PkgEffects((group.0, keyGroups), f, status, n)
    {
      var groupEffects := RunKeyGroup(keyGroups[j].0, keyGroups[j].1, f, status, n');
      KindLoopStep(keyGroups, f, status, j, n', effects, groupEffects);
      effects := effects + groupEffects;
      n' := n' + 1;
    }
    assert effects + [] == effects;
  }

  /** `update()`: collect the work, return at once when there is none, else
      walk the groups by package and then by dependency kind. */
  method Update(roots: seq<string>, manifests: map<string, Manifest>, deps: seq<string>,
                f: Flags, status: nat -> string)
    returns (outcome: Result<seq<Effect>, UpdateError>)
    ensures outcome == UpdateSpec(roots, manifests, deps, f, status)
    ensures Collect(roots, manifests, deps) == Ok([]) ==> outcome == Ok([])
  {
    var collected := CollectTasks(roots, manifests, deps);
    if collected.Err? {
      return Err(collected.error);
    }
    var work := collected.value;
    if |work| == 0 {
      assert Grouped(PkgOf, work) == [];
      return Ok([]);
    }
    var groups := GroupBy(PkgOf, work);
    var effects := RunPackages(groups, f, status);
    return Ok(effects);
  }

  /** One step of the outer loop: running package group `i` moves it from
      what is left to what is done. */
  lemma PkgLoopStep(groups: seq<(string, seq<Task>)>, f: Flags, status: nat -> string, i: nat, n: nat,
                    done: seq<Effect>, out: seq<Effect>, n': nat)
    requires i < |groups|
    requires out == PkgEffects((groups[i].0, Grouped(KeyOf, groups[i].1)), f, status, n)
    requires n' == n + |Grouped(KeyOf, groups[i].1)|
    ensures done + Spread(Nest(groups)[i..], PkgSize, (g, k) => PkgEffects(g, f, status, k), n)
         == (done + out) + Spread(Nest(groups)[i + 1..], PkgSize, (g, k) => PkgEffects(g, f, status, k), n')
  {
    var step := (g, k) => PkgEffects(g, f, status, k);
    SpreadAt(Nest(groups), PkgSize, step, i, n);
    AppendAssoc(done, out, Spread(Nest(groups)[i + 1..], PkgSize, step, n'));
  }

  /** The outer loop of `update`, over the tasks grouped by package. */
  method RunPackages(groups: seq<(string, seq<Task>)>, f: Flags, status: nat -> string)
    returns (effects: seq<Effect>)
    ensures effects == Spread(Nest(groups), PkgSize, (g, k) => PkgEffects(g, f, status, k), 0)
  {
    effects := [];
    var n: nat := 0;
    for i := 0 to |groups|
      invariant effects + Spread(Nest(groups)[i..], PkgSize, (g, k) => PkgEffects(g, f, status, k), n)
             == Spread(Nest(groups), PkgSize, (g, k) => PkgEffects(g, f, status, k), 0)
    {
      var pkgEffects, n' := RunPackage(groups[i], f, status, n);
      PkgLoopStep(groups, f, status, i, n, effects, pkgEffects, n');
      effects := effects + pkgEffects;
      n := n';
    }
    assert effects + [] == effects;
  }

  /** The script's entry: `update` is the only command. */
  method Run(command: Option<string>, deps: seq<string>, roots: seq<string>, manifests: map<string, Manifest>,
             f: Flags, status: nat -> string)
    returns (outcome: Result<seq<Effect>, UpdateError>)
    ensures command == Some("update") ==> outcome == UpdateSpec(roots, manifests, deps, f, status)
    ensures command != Some("update") ==> outcome == Err(UnknownCommand("Unknown command " + command.GetOr("undefined")))
  {
    if command == Some("update") {
      outcome := Update(roots, manifests, deps, f, status);
    } else {
      outcome := Err(UnknownCommand("Unknown command " + command.GetOr("undefined")));
    }
  }

  // ---------------------------------------------------------------------
  // What running the work does

  function LogText(e: Effect): Option<string> {
    if e.Log? then Some(e.text) else None
  }

  function StatusText(e: Effect): Option<string> {
    if e.Status? then Some(e.stdout) else None
  }

  /** What `console.log` printed, in order. */
  function Printed(es: seq<Effect>): seq<string> {
    Pick(es, LogText)
  }

  /** What each `git status -s` printed, in the order of the calls. */
  function StatusOutputs(es: seq<Effect>): seq<string> {
    Pick(es, StatusText)
  }

  /** Whether a group is followed by `git status`: installs run and `--commit` is set. */
  predicate ChecksStatus(f: Flags) {
    !f.dryrun && f.commit
  }

  // Printing

  /** The report of one kind group: its key, then one line per task. */
  function KindReport(kg: (string, seq<Task>)): seq<string> {
    ["  " + kg.0 + ":", Join(LogLines(kg.1), "\n")]
  }

  /** The report of one package: its name, then its kind groups. */
  function PkgReport(g: (string, KindGroups)): seq<string> {
    ["[" + g.0 + "]:"] + Flat(g.1, KindReport)
  }

  /** The report `update` prints for the work, whatever the flags. */
  function Report(work: seq<Task>): seq<string> {
    Flat(WorkGroups(work), PkgReport)
  }

  lemma InstallsPrintNothing(root: string, args: seq<string>, mode: string, message: string, f: Flags, stdout: string)
    ensures Printed(InstallEffects(root, args, mode, message, f, stdout)) == []
  {
    PickNone(InstallEffects(root, args, mode, message, f, stdout), LogText);
  }

  lemma KeyGroupPrinted(kg: (string, seq<Task>), f: Flags, status: nat -> string, n: nat)
    requires kg.1 != []
    ensures Printed(KeyGroupEffects(kg, f, status, n)) == KindReport(kg)
  {
    var ts := kg.1;
    var a, b := Log("  " + kg.0 + ":"), Log(Join(LogLines(ts), "\n"));
    var tail := InstallEffects(ts[0].root, InstallArgs(ts), ts[0].mode, CommitMessage(ts), f, status(n));
    InstallsPrintNothing(ts[0].root, InstallArgs(ts), ts[0].mode, CommitMessage(ts), f, status(n));
    assert [a, b] == [a] + [b];
    PickAppend([a, b], tail, LogText);
    PickAppend([a], [b], LogText);
    PickOne(a, LogText);
    PickOne(b, LogText);
  }

  lemma PkgPrinted(g: (string, KindGroups), f: Flags, status: nat -> string, n: nat)
    requires NonEmptyGroups(g.1)
    ensures Printed(PkgEffects(g, f, status, n)) == PkgReport(g)
  {
    var step := (kg, k) => KeyGroupEffects(kg, f, status, k);
    forall i, k: nat | 0 <= i < |g.1|
      ensures Pick(step(g.1[i], k), LogText) == KindReport(g.1[i])
    {
      KeyGroupPrinted(g.1[i], f, status, k);
    }
    SpreadPicked(g.1, KindSize, step, n, LogText, KindReport);
    var h := Log("[" + g.0 + "]:");
    PickOne(h, LogText);
    PickAppend([h], Spread(g.1, KindSize, step, n), LogText);
  }

  /** `update` prints the report of the work: per package its name, per
      dependency kind its key and one line per bump. */
  lemma WorkPrinted(work: seq<Task>, f: Flags, status: nat -> string)
    ensures Printed(WorkEffects(work, f, status)) == Report(work)
  {
    WorkGroupsNonEmpty(work);
    var ngs := WorkGroups(work);
    var step := (g, k) => PkgEffects(g, f, status, k);
    forall i, k: nat | 0 <= i < |ngs|
      ensures Pick(step(ngs[i], k), LogText) == PkgReport(ngs[i])
    {
      PkgPrinted(ngs[i], f, status, k);
    }
    SpreadPicked(ngs, PkgSize, step, 0, LogText, PkgReport);
  }

  /** `--dryrun` and `--commit` change what runs, never what is printed;
      neither does what git reports. */
  lemma ReportIgnoresFlags(work: seq<Task>, f: Flags, status: nat -> string, f2: Flags, status2: nat -> string)
    ensures Printed(WorkEffects(work, f, status)) == Printed(WorkEffects(work, f2, status2))
  {
    WorkPrinted(work, f, status);
    WorkPrinted(work, f2, status2);
  }

  // Asking git

  lemma InstallsStatus(root: string, args: seq<string>, mode: string, message: string, f: Flags, stdout: string)
    ensures StatusOutputs(InstallEffects(root, args, mode, message, f, stdout)) == if ChecksStatus(f) then [stdout] else []
  {
    var es := InstallEffects(root, args, mode, message, f, stdout);
    if ChecksStatus(f) {
      var installs := [Install(root, args, mode, true), Install(root, args, mode, false)];
      var commit := if IsDirty(stdout) then [Commit(root, message)] else [];
      assert es == installs + [Status(root, stdout)] + commit;
      PickNone(installs, StatusText);
      PickNone(commit, StatusText);
      PickOne(Status(root, stdout), StatusText);
      PickAppend(installs + [Status(root, stdout)], commit, StatusText);
      PickAppend(installs, [Status(root, stdout)], StatusText);
    } else {
      PickNone(es, StatusText);
    }
  }

  lemma KeyGroupStatus(kg: (string, seq<Task>), f: Flags, status: nat -> string, n: nat)
    requires kg.1 != []
    ensures StatusOutputs(KeyGroupEffects(kg, f, status, n)) == if ChecksStatus(f) then [status(n)] else []
  {
    var ts := kg.1;
    var logs := [Log("  " + kg.0 + ":"), Log(Join(LogLines(ts), "\n"))];
    var tail := InstallEffects(ts[0].root, InstallArgs(ts), ts[0].mode, CommitMessage(ts), f, status(n));
    InstallsStatus(ts[0].root, InstallArgs(ts), ts[0].mode, CommitMessage(ts), f, status(n));
    PickNone(logs, StatusText);
    PickAppend(logs, tail, StatusText);
  }

  lemma {:induction false} KindGroupsTotal(kgs: KindGroups)
    ensures Total(kgs, KindSize) == |kgs|
    decreases |kgs|
  {
    if kgs != [] {
      KindGroupsTotal(kgs[1..]);
    }
  }

  lemma PkgStatus(g: (string, KindGroups), f: Flags, status: nat -> string, n: nat)
    requires NonEmptyGroups(g.1)
    ensures StatusOutputs(PkgEffects(g, f, status, n)) == if ChecksStatus(f) then Calls(status, n, |g.1|) else []
  {
    var step := (kg, k) => KeyGroupEffects(kg, f, status, k);
    var body := Spread(g.1, KindSize, step, n);
    if ChecksStatus(f) {
      forall i, k: nat | 0 <= i < |g.1|
        ensures Pick(step(g.1[i], k), StatusText) == Calls(status, k, KindSize(g.1[i]))
      {
        KeyGroupStatus(g.1[i], f, status, k);
        assert Calls(status, k, 1) == [status(k)];
      }
      SpreadCalls(g.1, KindSize, step, n, StatusText, status);
      KindGroupsTotal(g.1);
    } else {
      forall i, k: nat | 0 <= i < |g.1|
        ensures Pick(step(g.1[i], k), StatusText) == []
      {
        KeyGroupStatus(g.1[i], f, status, k);
      }
      SpreadPickedNone(g.1, KindSize, step, n, StatusText);
    }
    var h := Log("[" + g.0 + "]:");
    PickOne(h, StatusText);
    PickAppend([h], body, StatusText);
  }

  /** `git status -s` runs once per (package, kind) group when installs run
      and `--commit` is set, and never otherwise; the k-th call is the one
      that prints `status(k)`. */
  lemma StatusCalls(work: seq<Task>, f: Flags, status: nat -> string)
    ensures StatusOutputs(WorkEffects(work, f, status)) == if ChecksStatus(f) then Calls(status, 0, GroupCount(work)) else []
  {
    WorkGroupsNonEmpty(work);
    var ngs := WorkGroups(work);
    var step := (g, k) => PkgEffects(g, f, status, k);
    if ChecksStatus(f) {
      forall i, k: nat | 0 <= i < |ngs|
        ensures Pick(step(ngs[i], k), StatusText) == Calls(status, k, PkgSize(ngs[i]))
      {
        PkgStatus(ngs[i], f, status, k);
      }
      SpreadCalls(ngs, PkgSize, step, 0, StatusText, status);
    } else {
      forall i, k: nat | 0 <= i < |ngs|
        ensures Pick(step(ngs[i], k), StatusText) == []
      {
        PkgStatus(ngs[i], f, status, k);
      }
      SpreadPickedNone(ngs, PkgSize, step, 0, StatusText);
    }
  }

  // Committing

  /** A `git status -s` whose output shows a manifest. */
  predicate DirtyStatus(e: Effect) {
    e.Status? && IsDirty(e.stdout)
  }

  /** Every commit comes right after a `git status -s` of the same root that
      shows a manifest, and every such status is followed by its commit:
      neither a commit opens the run nor a dirty status closes it, and of two
      neighbours the second is a commit exactly when the first is a dirty
      status. */
  predicate CommitsFollowDirtyStatus(es: seq<Effect>) {
    && (es != [] ==> !es[0].Commit? && !DirtyStatus(es[|es| - 1]))
    && forall i, j :: 0 <= i < |es| && 0 <= j < |es| && j == i + 1 ==>
         (es[j].Commit? <==> DirtyStatus(es[i])) && (es[j].Commit? ==> es[j].root == es[i].root)
  }

  lemma PairedAppend(a: seq<Effect>, b: seq<Effect>)
    requires CommitsFollowDirtyStatus(a) && CommitsFollowDirtyStatus(b)
    ensures CommitsFollowDirtyStatus(a + b)
  {
    var es := a + b;
    forall i, j | 0 <= i < |es| && 0 <= j < |es| && j == i + 1
      ensures (es[j].Commit? <==> DirtyStatus(es[i])) && (es[j].Commit? ==> es[j].root == es[i].root)
    {
      if j < |a| {
        assert es[i] == a[i] && es[j] == a[j];
      } else if i >= |a| {
        assert es[i] == b[i - |a|] && es[j] == b[j - |a|];
      } else {
        assert es[i] == a[|a| - 1] && es[j] == b[0];
      }
    }
    if es != [] {
      if a == [] {
        assert es == b;
      } else if b == [] {
        assert es == a;
      } else {
        assert es[0] == a[0] && es[|es| - 1] == b[|b| - 1];
      }
    }
  }

  lemma {:induction false} SpreadPaired<X>(xs: seq<X>, size: X -> nat, emit: (X, nat) -> seq<Effect>, n: nat)
    requires forall i, k: nat :: 0 <= i < |xs| ==> CommitsFollowDirtyStatus(emit(xs[i], k))
    ensures CommitsFollowDirtyStatus(Spread(xs, size, emit, n))
    decreases |xs|
  {
    if xs != [] {
      var rest := xs[1..];
      assert forall i :: 0 <= i < |rest| ==> rest[i] == xs[i + 1];
      SpreadPaired(rest, size, emit, n + size(xs[0]));
      PairedAppend(emit(xs[0], n), Spread(rest, size, emit, n + size(xs[0])));
    }
  }

  lemma KeyGroupPaired(kg: (string, seq<Task>), f: Flags, status: nat -> string, n: nat)
    ensures CommitsFollowDirtyStatus(KeyGroupEffects(kg, f, status, n))
  {
    var ts := kg.1;
    if ts != [] {
      var logs := [Log("  " + kg.0 + ":"), Log(Join(LogLines(ts), "\n"))];
      var tail := InstallEffects(ts[0].root, InstallArgs(ts), ts[0].mode, CommitMessage(ts), f, status(n));
      assert CommitsFollowDirtyStatus(tail);
      PairedAppend(logs, tail);
    }
  }

  lemma PkgPaired(g: (string, KindGroups), f: Flags, status: nat -> string, n: nat)
    ensures CommitsFollowDirtyStatus(PkgEffects(g, f, status, n))
  {
    var step := (kg, k) => KeyGroupEffects(kg, f, status, k);
    forall i, k: nat | 0 <= i < |g.1|
      ensures CommitsFollowDirtyStatus(step(g.1[i], k))
    {
      KeyGroupPaired(g.1[i], f, status, k);
    }
    SpreadPaired(g.1, KindSize, step, n);
    var h := Log("[" + g.0 + "]:");
    assert CommitsFollowDirtyStatus([h]);
    PairedAppend([h], Spread(g.1, KindSize, step, n));
  }

  /** A commit happens exactly after a status that shows `package.json` or
      `package-lock.json`, in the same root. */
  lemma CommitsOnlyWhenDirty(work: seq<Task>, f: Flags, status: nat -> string)
    ensures CommitsFollowDirtyStatus(WorkEffects(work, f, status))
  {
    var ngs := WorkGroups(work);
    var step := (g, k) => PkgEffects(g, f, status, k);
    forall i, k: nat | 0 <= i < |ngs|
      ensures CommitsFollowDirtyStatus(step(ngs[i], k))
    {
      PkgPaired(ngs[i], f, status, k);
    }
    SpreadPaired(ngs, PkgSize, step, 0);
  }

  // Installing

  /** A group of the work: tasks of the work that share the package name and
      the dependency kind of the first. */
  predicate GroupOfWork(work: seq<Task>, ts: seq<Task>) {
    ts != [] && forall u :: u in ts ==> u in work && u.pkg == ts[0].pkg && u.key == ts[0].key
  }

  /** The tasks of kind group `j` of package `i` come from the work and share
      the package's name and the group's key. */
  lemma KindGroupMembers(work: seq<Task>, i: nat, j: nat, u: Task)
    requires i < |WorkGroups(work)| && j < |WorkGroups(work)[i].1|
    requires u in WorkGroups(work)[i].1[j].1
    ensures u in work && u.pkg == WorkGroups(work)[i].0 && u.key == WorkGroups(work)[i].1[j].0
  {
    var pgs := Grouped(PkgOf, work);
    GroupedMembers(KeyOf, pgs[i].1, u);
    GroupedMembers(PkgOf, work, u);
  }

  lemma KindGroupIsGroupOfWork(work: seq<Task>, i: nat, j: nat)
    requires i < |WorkGroups(work)| && j < |WorkGroups(work)[i].1|
    ensures GroupOfWork(work, WorkGroups(work)[i].1[j].1)
  {
    WorkGroupsNonEmpty(work);
    var ts := WorkGroups(work)[i].1[j].1;
    KindGroupMembers(work, i, j, ts[0]);
    forall u | u in ts
      ensures u in work && u.pkg == ts[0].pkg && u.key == ts[0].key
    {
      KindGroupMembers(work, i, j, u);
    }
  }

  /** Every task of the work lies in some kind group of some package. */
  lemma KindGroupOf(work: seq<Task>, t: Task) returns (i: nat, j: nat)
    requires t in work
    ensures i < |WorkGroups(work)| && j < |WorkGroups(work)[i].1| && t in WorkGroups(work)[i].1[j].1
  {
    var pgs := Grouped(PkgOf, work);
    GroupedMembers(PkgOf, work, t);
    var i' :| 0 <= i' < |pgs| && t in pgs[i'].1;
    GroupedMembers(KeyOf, pgs[i'].1, t);
    var kgs := Grouped(KeyOf, pgs[i'].1);
    var j' :| 0 <= j' < |kgs| && t in kgs[j'].1;
    i, j := i', j';
  }

  /** Unless `--dryrun`, every kind group is installed, once with
      `--no-workspaces` and once without, in the root of its first task. */
  lemma KindGroupInstalled(work: seq<Task>, f: Flags, status: nat -> string, i: nat, j: nat, isolated: bool)
    requires !f.dryrun && i < |WorkGroups(work)| && j < |WorkGroups(work)[i].1|
    ensures WorkGroups(work)[i].1[j].1 != []
    ensures var ts := WorkGroups(work)[i].1[j].1;
      Install(ts[0].root, InstallArgs(ts), ts[0].mode, isolated) in WorkEffects(work, f, status)
  {
    WorkGroupsNonEmpty(work);
    var ngs := WorkGroups(work);
    var g := ngs[i];
    var kg := g.1[j];
    var ts := kg.1;
    var e := Install(ts[0].root, InstallArgs(ts), ts[0].mode, isolated);
    var kindStep := (kg, k) => KeyGroupEffects(kg, f, status, k);
    forall k: nat
      ensures e in kindStep(kg, k)
    {
      assert e in InstallEffects(ts[0].root, InstallArgs(ts), ts[0].mode, CommitMessage(ts), f, status(k));
    }
    var pkgStep := (g, k) => PkgEffects(g, f, status, k);
    forall k: nat
      ensures e in pkgStep(g, k)
    {
      SpreadContains(g.1, KindSize, kindStep, k, j, e);
    }
    SpreadContains(ngs, PkgSize, pkgStep, 0, i, e);
  }

  /** Unless `--dryrun`, every task is installed at its requested version by
      both installs of a group of the work it belongs to. */
  lemma InstallsCoverWork(work: seq<Task>, f: Flags, status: nat -> string, t: Task, isolated: bool)
    requires t in work && !f.dryrun
    ensures exists ts: seq<Task> :: t in ts && InstallArg(t) in InstallArgs(ts) && GroupOfWork(work, ts) &&
                         Install(ts[0].root, InstallArgs(ts), ts[0].mode, isolated) in WorkEffects(work, f, status)
  {
    var i, j := KindGroupOf(work, t);
    var ts := WorkGroups(work)[i].1[j].1;
    KindGroupInstalled(work, f, status, i, j, isolated);
    KindGroupIsGroupOfWork(work, i, j);
    var x :| 0 <= x < |ts| && ts[x] == t;
    assert InstallArgs(ts)[x] == InstallArg(t);
  }

  /** The installs of a kind group install that group in the root and with
      the save flag of its first task. */
  lemma KeyGroupInstalls(kg: (string, seq<Task>), f: Flags, status: nat -> string, k: nat, e: Effect)
    requires e in KeyGroupEffects(kg, f, status, k) && e.Install?
    ensures !f.dryrun && kg.1 != []
    ensures e == Install(kg.1[0].root, InstallArgs(kg.1), kg.1[0].mode, e.isolated)
  {
    var ts := kg.1;
    var rest := InstallEffects(ts[0].root, InstallArgs(ts), ts[0].mode, CommitMessage(ts), f, status(k));
    assert e in rest;
  }

  /** Every install is of a group of the work, in the root and with the
      save flag of its first task, and never happens with `--dryrun`. */
  lemma InstallsFromWork(work: seq<Task>, f: Flags, status: nat -> string, e: Effect)
    requires e in WorkEffects(work, f, status) && e.Install?
    ensures !f.dryrun
    ensures exists ts: seq<Task> :: GroupOfWork(work, ts) && e == Install(ts[0].root, InstallArgs(ts), ts[0].mode, e.isolated)
  {
    var ngs := WorkGroups(work);
    var pkgStep := (g, k) => PkgEffects(g, f, status, k);
    SpreadMembers(ngs, PkgSize, pkgStep, 0, e);
    var i, k: nat :| 0 <= i < |ngs| && e in pkgStep(ngs[i], k);
    var g := ngs[i];
    var kindStep := (kg, k) => KeyGroupEffects(kg, f, status, k);
    assert e in Spread(g.1, KindSize, kindStep, k);
    SpreadMembers(g.1, KindSize, kindStep, k, e);
    var j, k': nat :| 0 <= j < |g.1| && e in kindStep(g.1[j], k');
    KeyGroupInstalls(g.1[j], f, status, k', e);
    KindGroupIsGroupOfWork(work, i, j);
  }

  /** The commit of a kind group is made only with `--commit` and without
      `--dryrun`, only when `git status -s` showed a manifest, in the root of
      the group's first task and with the group's message. */
  lemma KeyGroupCommits(kg: (string, seq<Task>), f: Flags, status: nat -> string, k: nat, e: Effect)
    requires e in KeyGroupEffects(kg, f, status, k) && e.Commit?
    ensures !f.dryrun && f.commit && IsDirty(status(k)) && kg.1 != []
    ensures e == Commit(kg.1[0].root, CommitMessage(kg.1))
  {
    var ts := kg.1;
    var rest := InstallEffects(ts[0].root, InstallArgs(ts), ts[0].mode, CommitMessage(ts), f, status(k));
    assert e in rest;
  }

  /** Every commit is of a group of the work: made in the root of its first
      task, with the message that lists the group's tasks. */
  lemma CommitsFromWork(work: seq<Task>, f: Flags, status: nat -> string, e: Effect)
    requires e in WorkEffects(work, f, status) && e.Commit?
    ensures !f.dryrun && f.commit
    ensures exists ts: seq<Task> :: GroupOfWork(work, ts) && e == Commit(ts[0].root, CommitMessage(ts))
  {
    var ngs := WorkGroups(work);
    var pkgStep := (g, k) => PkgEffects(g, f, status, k);
    SpreadMembers(ngs, PkgSize, pkgStep, 0, e);
    var i, k: nat :| 0 <= i < |ngs| && e in pkgStep(ngs[i], k);
    var g := ngs[i];
    var kindStep := (kg, k) => KeyGroupEffects(kg, f, status, k);
    assert e in Spread(g.1, KindSize, kindStep, k);
    SpreadMembers(g.1, KindSize, kindStep, k, e);
    var j, k': nat :| 0 <= j < |g.1| && e in kindStep(g.1[j], k');
    KeyGroupCommits(g.1[j], f, status, k', e);
    KindGroupIsGroupOfWork(work, i, j);
  }

  /** With `--commit`, without `--dryrun`, and with git reporting a changed
      manifest for every group, every kind group is committed. */
  lemma KindGroupCommitted(work: seq<Task>, f: Flags, status: nat -> string, i: nat, j: nat)
    requires !f.dryrun && f.commit && forall n: nat :: IsDirty(status(n))
    requires i < |WorkGroups(work)| && j < |WorkGroups(work)[i].1|
    ensures WorkGroups(work)[i].1[j].1 != []
    ensures var ts := WorkGroups(work)[i].1[j].1;
      Commit(ts[0].root, CommitMessage(ts)) in WorkEffects(work, f, status)
  {
    WorkGroupsNonEmpty(work);
    var ngs := WorkGroups(work);
    var g := ngs[i];
    var kg := g.1[j];
    var ts := kg.1;
    var e := Commit(ts[0].root, CommitMessage(ts));
    var kindStep := (kg, k) => KeyGroupEffects(kg, f, status, k);
    forall k: nat
      ensures e in kindStep(kg, k)
    {
      assert IsDirty(status(k));
      assert e in InstallEffects(ts[0].root, InstallArgs(ts), ts[0].mode, CommitMessage(ts), f, status(k));
    }
    var pkgStep := (g, k) => PkgEffects(g, f, status, k);
    forall k: nat
      ensures e in pkgStep(g, k)
    {
      SpreadContains(g.1, KindSize, kindStep, k, j, e);
    }
    SpreadContains(ngs, PkgSize, pkgStep, 0, i, e);
  }

  /** In that case every task of the work is named, as `name[prev->next]`, in
      the message of a commit of a group of the work it belongs to. */
  lemma CommitsCoverWork(work: seq<Task>, f: Flags, status: nat -> string, t: Task)
    requires t in work && !f.dryrun && f.commit && forall n: nat :: IsDirty(status(n))
    ensures exists ts: seq<Task> :: t in ts && CommitItem(t) in CommitItems(ts) && GroupOfWork(work, ts) &&
                         Commit(ts[0].root, CommitMessage(ts)) in WorkEffects(work, f, status)
  {
    var i, j := KindGroupOf(work, t);
    var ts := WorkGroups(work)[i].1[j].1;
    KindGroupCommitted(work, f, status, i, j);
    KindGroupIsGroupOfWork(work, i, j);
    var x :| 0 <= x < |ts| && ts[x] == t;
    assert CommitItems(ts)[x] == CommitItem(t);
  }

  /** What the flags allow a kind group to do. */
  lemma KeyGroupFlags(kg: (string, seq<Task>), f: Flags, status: nat -> string, k: nat, e: Effect)
    requires e in KeyGroupEffects(kg, f, status, k)
    ensures f.dryrun ==> e.Log?
    ensures !f.commit ==> e.Log? || e.Install?
  {
    if !e.Log? {
      var ts := kg.1;
      assert e in InstallEffects(ts[0].root, InstallArgs(ts), ts[0].mode, CommitMessage(ts), f, status(k));
    }
  }

  /** `--dryrun` only reports, and without `--commit` git is never run. */
  lemma FlagsLimitEffects(work: seq<Task>, f: Flags, status: nat -> string, e: Effect)
    requires e in WorkEffects(work, f, status)
    ensures f.dryrun ==> e.Log?
    ensures !f.commit ==> e.Log? || e.Install?
  {
    var ngs := WorkGroups(work);
    var pkgStep := (g, k) => PkgEffects(g, f, status, k);
    SpreadMembers(ngs, PkgSize, pkgStep, 0, e);
    var i, k: nat :| 0 <= i < |ngs| && e in pkgStep(ngs[i], k);
    var g := ngs[i];
    if !e.Log? {
      var kindStep := (kg, k) => KeyGroupEffects(kg, f, status, k);
      assert e in Spread(g.1, KindSize, kindStep, k);
      SpreadMembers(g.1, KindSize, kindStep, k, e);
      var j, k': nat :| 0 <= j < |g.1| && e in kindStep(g.1[j], k');
      KeyGroupFlags(g.1[j], f, status, k', e);
    }
  }

  /** Tasks with the same package name come from the same root. */
  predicate OneRootPerName(work: seq<Task>) {
    forall t, u :: t in work && u in work && t.pkg == u.pkg ==> t.root == u.root
  }

  /** Tasks of the same dependency kind use the same save flag. */
  predicate OneModePerKey(work: seq<Task>) {
    forall t, u :: t in work && u in work && t.key == u.key ==> t.mode == u.mode
  }

  /** Collected work saves `dependencies` with `--save` and
      `devDependencies` with `--save-dev`. */
  lemma CollectedModes(roots: seq<string>, manifests: map<string, Manifest>, deps: seq<string>)
    requires Collect(roots, manifests, deps).Ok?
    ensures OneModePerKey(Collect(roots, manifests, deps).value)
  {
    var work := Collect(roots, manifests, deps).value;
    forall t, u | t in work && u in work && t.key == u.key
      ensures t.mode == u.mode
    {
      TasksSound(roots, manifests, deps, t);
      TasksSound(roots, manifests, deps, u);
    }
  }

  /** When package names pick out roots, every task is installed in its own
      root with its own save flag, both with and without `--no-workspaces`. */
  lemma InstalledWhereDeclared(work: seq<Task>, f: Flags, status: nat -> string, t: Task, isolated: bool)
    requires t in work && !f.dryrun && OneRootPerName(work) && OneModePerKey(work)
    ensures exists args :: InstallArg(t) in args && Install(t.root, args, t.mode, isolated) in WorkEffects(work, f, status)
  {
    InstallsCoverWork(work, f, status, t, isolated);
    var ts: seq<Task> :| t in ts && InstallArg(t) in InstallArgs(ts) && GroupOfWork(work, ts) &&
              Install(ts[0].root, InstallArgs(ts), ts[0].mode, isolated) in WorkEffects(work, f, status);
    assert ts[0] in ts;
  }
}
