/** The pass over imports of tools/checks/architecture-policy.ts, and what an empty report of
    `inspectArchitecture` means for the import graph. */
module ArchitectureImports {
  import opened Common
  import opened ArchitecturePolicy

  /** A source file with the import specifiers found in it. Paths are relative to the repository
      and already resolved; `importSpecifiers` (a pair of regular expressions) is an input. */
  datatype SourceFile = SourceFile(path: string, specifiers: seq<string>)

  /** What is inspected; `resolvePath(file, specifier)` is `resolve(dirname(file), specifier)`. */
  datatype Repository = Repository(workspaces: seq<WorkspaceUnit>, files: seq<SourceFile>,
                                   resolvePath: (string, string) -> string)
  {
    function Registry(): Registry {
      ByName(workspaces)
    }

    function OwnerOf(path: string): Option<WorkspaceUnit> {
      FindOwner(path, workspaces)
    }

    /** The workspace that an import resolves to, by name or by relative path. */
    function Target(file: SourceFile, specifier: string): Option<WorkspaceUnit> {
      match WorkspaceDependencyName(specifier)
      case Some(name) => if name in Registry() then Some(Registry()[name]) else None
      case None => if "." <= specifier then OwnerOf(resolvePath(file.path, specifier)) else None
    }

    ghost predicate DistinctNames() {
      forall i, j :: 0 <= i < j < |workspaces| ==> workspaces[i].name != workspaces[j].name
    }
  }

  const PREFIX := "@workspace/"

  function BeforeSlash(s: string): string {
    if s == [] || s[0] == '/' then "" else [s[0]] + BeforeSlash(s[1..])
  }

  /** The first two segments of a specifier in the `@workspace` scope. */
  function WorkspaceDependencyName(specifier: string): Option<string> {
    if PREFIX <= specifier then Some(PREFIX + BeforeSlash(specifier[|PREFIX|..])) else None
  }

  /** The first workspace whose root is the path or one of its ancestors. */
  function FindOwner(path: string, workspaces: seq<WorkspaceUnit>): Option<WorkspaceUnit> {
    if workspaces == [] then None
    else if workspaces[0].root + "/" <= path + "/" then Some(workspaces[0])
    else FindOwner(path, workspaces[1..])
  }

  predicate Forbidden(source: Kind, target: Kind, sameWorkspace: bool) {
    if sameWorkspace then false
    else if source == Package then target == App || target == Module
    else if source == Module then target == App || target == Module
    else target == App
  }

  function KindName(kind: Kind): string {
    match kind case App => "app" case Package => "package" case Module => "module"
  }

  function UndeclaredIssue(file: SourceFile, owner: WorkspaceUnit, target: string): Issue {
    Issue(UndeclaredDependency, file.path, target, owner.name + " must declare " + target)
  }

  function LayerIssue(owner: WorkspaceUnit, target: WorkspaceUnit): Issue {
    Issue(ForbiddenLayer, owner.name, target.name, KindName(owner.kind) + " cannot depend on " + KindName(target.kind))
  }

  function EscapeIssue(file: SourceFile, targetPath: string): Issue {
    Issue(BoundaryEscape, file.path, targetPath, "Workspace boundaries must use declared package imports")
  }

  function When(condition: bool, issue: Issue): seq<Issue> {
    if condition then [issue] else []
  }

  /** The issues of one import of a file that `owner` contains. */
  function ImportIssues(repo: Repository, file: SourceFile, owner: WorkspaceUnit, specifier: string): seq<Issue> {
    match repo.Target(file, specifier)
    case None => []
    case Some(target) =>
      if PREFIX <= specifier then
        var name := WorkspaceDependencyName(specifier).value;
        When(name !in owner.dependencies, UndeclaredIssue(file, owner, name))
        + When(Forbidden(owner.kind, target.kind, owner.name == target.name), LayerIssue(owner, target))
      else if target.name == owner.name then []
      else
        [EscapeIssue(file, repo.resolvePath(file.path, specifier))]
        + When(Forbidden(owner.kind, target.kind, false), LayerIssue(owner, target))
  }

  function OwnedImportIssues(repo: Repository, file: SourceFile, specifier: string): seq<Issue> {
    match repo.OwnerOf(file.path)
    case None => []
    case Some(owner) => ImportIssues(repo, file, owner, specifier)
  }

  function SpecifierIssues(repo: Repository, file: SourceFile, specifiers: seq<string>): seq<Issue> {
    if specifiers == [] then []
    else
      SpecifierIssues(repo, file, specifiers[..|specifiers| - 1])
      + OwnedImportIssues(repo, file, specifiers[|specifiers| - 1])
  }

  function FileIssues(repo: Repository, files: seq<SourceFile>): seq<Issue> {
    if files == [] then []
    else
      FileIssues(repo, files[..|files| - 1])
      + SpecifierIssues(repo, files[|files| - 1], files[|files| - 1].specifiers)
  }

  // ---- The pass itself ----

  /** One iteration of the innermost loop of `inspectArchitecture`. */
  method InspectImport(repo: Repository, file: SourceFile, owner: WorkspaceUnit, specifier: string, found: seq<Issue>)
    returns (issues: seq<Issue>)
    ensures issues == found + ImportIssues(repo, file, owner, specifier)
  {
    var byName := ByName(repo.workspaces);
    issues := found;
    var dependencyName := WorkspaceDependencyName(specifier);
    if dependencyName.Some? {
      if dependencyName.value !in byName {
        return;
      }
      var target := byName[dependencyName.value];
      if dependencyName.value !in owner.dependencies {
        issues := issues + [UndeclaredIssue(file, owner, dependencyName.value)];
      }
      if Forbidden(owner.kind, target.kind, owner.name == target.name) {
        issues := issues + [LayerIssue(owner, target)];
      }
      return;
    }
    if !("." <= specifier) {
      return;
    }
    var targetPath := repo.resolvePath(file.path, specifier);
    var target := FindOwner(targetPath, repo.workspaces);
    if target == None || target.value.name == owner.name {
      return;
    }
    issues := issues + [EscapeIssue(file, targetPath)];
    if Forbidden(owner.kind, target.value.kind, false) {
      issues := issues + [LayerIssue(owner, target.value)];
    }
  }

  lemma {:induction false} UnownedFile(repo: Repository, file: SourceFile, specifiers: seq<string>)
    requires repo.OwnerOf(file.path) == None
    ensures SpecifierIssues(repo, file, specifiers) == []
  {
    if specifiers != [] {
      UnownedFile(repo, file, specifiers[..|specifiers| - 1]);
    }
  }

  lemma Reassociate(a: seq<Issue>, b: seq<Issue>, c: seq<Issue>)
    ensures a + b + c == a + (b + c)
  {
  }

  lemma {:induction false} SpecifierIssuesSnoc(repo: Repository, file: SourceFile, i: nat)
    requires i < |file.specifiers|
    ensures SpecifierIssues(repo, file, file.specifiers[..i + 1]) ==
            SpecifierIssues(repo, file, file.specifiers[..i]) + OwnedImportIssues(repo, file, file.specifiers[i])
  {
    assert file.specifiers[..i + 1][..i] == file.specifiers[..i];
  }

  /** The loop over the specifiers of one file. */
  method InspectFile(repo: Repository, file: SourceFile, owner: WorkspaceUnit, found: seq<Issue>)
    returns (issues: seq<Issue>)
    requires repo.OwnerOf(file.path) == Some(owner)
    ensures issues == found + SpecifierIssues(repo, file, file.specifiers)
  {
    issues := found;
    var i := 0;
    while i < |file.specifiers|
      invariant i <= |file.specifiers|
      invariant issues == found + SpecifierIssues(repo, file, file.specifiers[..i])
    {
      issues := InspectImport(repo, file, owner, file.specifiers[i], issues);
      SpecifierIssuesSnoc(repo, file, i);
      Reassociate(found, SpecifierIssues(repo, file, file.specifiers[..i]), ImportIssues(repo, file, owner, file.specifiers[i]));
      i := i + 1;
    }
    assert file.specifiers[..i] == file.specifiers;
  }

  lemma {:induction false} FileIssuesSnoc(repo: Repository, i: nat)
    requires i < |repo.files|
    ensures FileIssues(repo, repo.files[..i + 1]) ==
            FileIssues(repo, repo.files[..i]) + SpecifierIssues(repo, repo.files[i], repo.files[i].specifiers)
  {
    assert repo.files[..i + 1][..i] == repo.files[..i];
  }

  ghost predicate ReportWith(repo: Repository, issues: seq<Issue>, cycles: seq<Issue>) {
    CycleReport(repo.workspaces, cycles) && issues == cycles + FileIssues(repo, repo.files)
  }

  /** The issues are those of the declared graph, then those of each file in turn. (The source
      finally sorts them for printing.) */
  ghost predicate Report(repo: Repository, issues: seq<Issue>) {
    exists cycles :: ReportWith(repo, issues, cycles)
  }

  lemma {:induction false} FilesBegin(repo: Repository, cycles: seq<Issue>)
    ensures cycles == cycles + FileIssues(repo, repo.files[..0])
  {
  }

  method InspectArchitecture(repo: Repository) returns (issues: seq<Issue>)
    ensures Report(repo, issues)
    ensures issues == [] <==> Acyclic(repo.Registry()) && AllAllowed(repo)
  {
    hide FindOwner, SpecifierIssues, FileIssues, Report, AllAllowed, Acyclic;
    ghost var order;
    issues, order := CycleIssues(repo.workspaces);
    ghost var cycles := issues;
    FilesBegin(repo, cycles);
    var i := 0;
    while i < |repo.files|
      invariant i <= |repo.files|
      invariant issues == cycles + FileIssues(repo, repo.files[..i])
    {
      var owner := FindOwner(repo.files[i].path, repo.workspaces);
      if owner.Some? {
        issues := InspectFile(repo, repo.files[i], owner.value, issues);
      } else {
        UnownedFile(repo, repo.files[i], repo.files[i].specifiers);
      }
      FileIssuesSnoc(repo, i);
      Reassociate(cycles, FileIssues(repo, repo.files[..i]), SpecifierIssues(repo, repo.files[i], repo.files[i].specifiers));
      i := i + 1;
    }
    assert repo.files[..i] == repo.files;
    ReportOf(repo, issues, cycles);
    NoIssuesIff(repo, issues);
  }

  lemma ReportOf(repo: Repository, issues: seq<Issue>, cycles: seq<Issue>)
    requires ReportWith(repo, issues, cycles)
    ensures Report(repo, issues)
  {
  }

  // ---- What a report without issues means ----

  ghost predicate ImportOf(repo: Repository, file: SourceFile, specifier: string,
                           source: WorkspaceUnit, target: WorkspaceUnit) {
    && file in repo.files && specifier in file.specifiers
    && repo.OwnerOf(file.path) == Some(source)
    && repo.Target(file, specifier) == Some(target)
  }

  /** What the policy asks of an import that resolves to a workspace: named imports are declared,
      relative ones stay inside, applications are never imported and modules only by applications. */
  ghost predicate ImportAllowed(specifier: string, source: WorkspaceUnit, target: WorkspaceUnit) {
    && (PREFIX <= specifier ==> target.name in source.dependencies)
    && (!(PREFIX <= specifier) ==> target.name == source.name)
    && (source.name != target.name ==> target.kind != App && (target.kind == Module ==> source.kind == App))
  }

  ghost predicate AllAllowed(repo: Repository) {
    forall file, specifier, source, target ::
      ImportOf(repo, file, specifier, source, target) ==> ImportAllowed(specifier, source, target)
  }

  lemma {:induction false} ByNameValue(workspaces: seq<WorkspaceUnit>, name: string)
    requires name in ByName(workspaces)
    ensures ByName(workspaces)[name] in workspaces && ByName(workspaces)[name].name == name
  {
    if workspaces[|workspaces| - 1].name != name {
      ByNameValue(workspaces[..|workspaces| - 1], name);
    }
  }

  lemma {:induction false} MemberByName(workspaces: seq<WorkspaceUnit>, workspace: WorkspaceUnit)
    requires forall i, j :: 0 <= i < j < |workspaces| ==> workspaces[i].name != workspaces[j].name
    requires workspace in workspaces
    ensures workspace.name in ByName(workspaces) && ByName(workspaces)[workspace.name] == workspace
  {
    if workspaces[|workspaces| - 1] != workspace {
      MemberByName(workspaces[..|workspaces| - 1], workspace);
    }
  }

  lemma {:induction false} FindOwnerMember(path: string, workspaces: seq<WorkspaceUnit>)
    ensures FindOwner(path, workspaces).Some? ==> FindOwner(path, workspaces).value in workspaces
  {
    if workspaces != [] {
      FindOwnerMember(path, workspaces[1..]);
    }
  }

  /** The path is the root or lies below it. */
  predicate Contains(root: string, path: string) {
    path == root || root + "/" <= path
  }

  lemma ContainsIff(root: string, path: string)
    ensures root + "/" <= path + "/" <==> Contains(root, path)
  {
    var closed := path + "/";
    assert closed[..|path|] == path;
    if |root| < |path| {
      assert closed[..|root| + 1] == path[..|root| + 1];
    }
    if root + "/" <= closed {
      assert (root + "/")[..|root|] == root && closed[..|root|] == root;
    }
  }

  /** The owner of a path is the first workspace that contains it; there is none iff none contains it. */
  lemma {:induction false} OwnerIsFirst(path: string, workspaces: seq<WorkspaceUnit>) returns (i: nat)
    ensures i <= |workspaces| && forall j :: 0 <= j < i ==> !Contains(workspaces[j].root, path)
    ensures i < |workspaces| ==> Contains(workspaces[i].root, path)
    ensures FindOwner(path, workspaces) == if i < |workspaces| then Some(workspaces[i]) else None
  {
    hide Contains;
    i := 0;
    if workspaces != [] {
      ContainsIff(workspaces[0].root, path);
      if !Contains(workspaces[0].root, path) {
        var rest := OwnerIsFirst(path, workspaces[1..]);
        i := rest + 1;
        forall j | 0 <= j < i
          ensures !Contains(workspaces[j].root, path)
        {
          assert j > 0 ==> workspaces[1..][j - 1] == workspaces[j];
        }
      }
    }
  }

  lemma ImportIssuesEmpty(repo: Repository, file: SourceFile, owner: WorkspaceUnit, specifier: string)
    ensures ImportIssues(repo, file, owner, specifier) == [] <==>
            (repo.Target(file, specifier).Some? ==>
               ImportAllowed(specifier, owner, repo.Target(file, specifier).value))
  {
    if PREFIX <= specifier && repo.Target(file, specifier).Some? {
      ByNameValue(repo.workspaces, WorkspaceDependencyName(specifier).value);
    }
  }

  lemma {:induction false} SpecifierIssuesEmpty(repo: Repository, file: SourceFile, specifiers: seq<string>)
    ensures SpecifierIssues(repo, file, specifiers) == [] <==>
            forall specifier :: specifier in specifiers ==> OwnedImportIssues(repo, file, specifier) == []
  {
    if specifiers != [] {
      var front, last := specifiers[..|specifiers| - 1], specifiers[|specifiers| - 1];
      SpecifierIssuesEmpty(repo, file, front);
      assert specifiers == front + [last];
    }
  }

  lemma {:induction false} FileIssuesEmpty(repo: Repository, files: seq<SourceFile>)
    ensures FileIssues(repo, files) == [] <==>
            forall file, specifier :: file in files && specifier in file.specifiers ==>
              OwnedImportIssues(repo, file, specifier) == []
  {
    if files != [] {
      var front, last := files[..|files| - 1], files[|files| - 1];
      FileIssuesEmpty(repo, front);
      SpecifierIssuesEmpty(repo, last, last.specifiers);
      assert files == front + [last];
    }
  }

  /** The report is empty exactly when the declared graph is acyclic and every import is allowed. */
  lemma NoIssuesIff(repo: Repository, issues: seq<Issue>)
    requires Report(repo, issues)
    ensures issues == [] <==> Acyclic(repo.Registry()) && AllAllowed(repo)
  {
    hide EveryCycleIsCut;
    var cycles :| ReportWith(repo, issues, cycles);
    FileIssuesEmpty(repo, repo.files);
    forall file, specifier | file in repo.files && specifier in file.specifiers
      ensures OwnedImportIssues(repo, file, specifier) == [] <==>
              forall source, target :: ImportOf(repo, file, specifier, source, target) ==>
                ImportAllowed(specifier, source, target)
    {
      OwnedImportEmpty(repo, file, specifier);
    }
  }

  lemma OwnedImportEmpty(repo: Repository, file: SourceFile, specifier: string)
    requires file in repo.files && specifier in file.specifiers
    ensures OwnedImportIssues(repo, file, specifier) == [] <==>
            forall source, target :: ImportOf(repo, file, specifier, source, target) ==>
              ImportAllowed(specifier, source, target)
  {
    if repo.OwnerOf(file.path).Some? {
      var owner := repo.OwnerOf(file.path).value;
      ImportIssuesEmpty(repo, file, owner, specifier);
      if repo.Target(file, specifier).Some? {
        assert ImportOf(repo, file, specifier, owner, repo.Target(file, specifier).value);
      }
    }
  }

  // ---- What is reported ----

  /** What the policy says about this import, as an issue. */
  ghost predicate Violation(repo: Repository, file: SourceFile, specifier: string, source: WorkspaceUnit, target: WorkspaceUnit, issue: Issue) {
    || (&& PREFIX <= specifier && target.name !in source.dependencies
        && issue == Issue(UndeclaredDependency, file.path, target.name, source.name + " must declare " + target.name))
    || (&& !(PREFIX <= specifier) && source.name != target.name
        && issue == Issue(BoundaryEscape, file.path, repo.resolvePath(file.path, specifier), "Workspace boundaries must use declared package imports"))
    || (&& source.name != target.name && (target.kind == App || (target.kind == Module && source.kind != App))
        && issue == Issue(ForbiddenLayer, source.name, target.name, KindName(source.kind) + " cannot depend on " + KindName(target.kind)))
  }

  ghost predicate Violates(repo: Repository, file: SourceFile, specifier: string, issue: Issue) {
    exists source, target :: ImportOf(repo, file, specifier, source, target) && Violation(repo, file, specifier, source, target, issue)
  }

  lemma {:induction false} SpecifierIssuesAre(repo: Repository, file: SourceFile, specifiers: seq<string>, issue: Issue)
    ensures issue in SpecifierIssues(repo, file, specifiers) <==>
            exists specifier :: specifier in specifiers && issue in OwnedImportIssues(repo, file, specifier)
  {
    hide OwnedImportIssues;
    if specifiers != [] {
      var front, last := specifiers[..|specifiers| - 1], specifiers[|specifiers| - 1];
      SpecifierIssuesAre(repo, file, front, issue);
      assert specifiers == front + [last];
    }
  }

  lemma {:induction false} FileIssuesAre(repo: Repository, files: seq<SourceFile>, issue: Issue)
    ensures issue in FileIssues(repo, files) <==>
            exists file, specifier :: file in files && specifier in file.specifiers && issue in OwnedImportIssues(repo, file, specifier)
  {
    hide OwnedImportIssues, SpecifierIssues;
    if files != [] {
      var front, last := files[..|files| - 1], files[|files| - 1];
      FileIssuesAre(repo, front, issue);
      SpecifierIssuesAre(repo, last, last.specifiers, issue);
      assert files == front + [last];
    }
  }

  lemma OwnedImportIssuesAre(repo: Repository, file: SourceFile, specifier: string, issue: Issue)
    requires file in repo.files && specifier in file.specifiers
    ensures issue in OwnedImportIssues(repo, file, specifier) <==> Violates(repo, file, specifier, issue)
  {
    if repo.OwnerOf(file.path).Some? && repo.Target(file, specifier).Some? {
      var source, target := repo.OwnerOf(file.path).value, repo.Target(file, specifier).value;
      if PREFIX <= specifier {
        ByNameValue(repo.workspaces, WorkspaceDependencyName(specifier).value);
      }
      assert ImportOf(repo, file, specifier, source, target);
      assert issue in OwnedImportIssues(repo, file, specifier) <==> Violation(repo, file, specifier, source, target, issue);
    }
  }

  /** Exactly the violations of the policy are reported, next to the cycles. */
  lemma ReportedIff(repo: Repository, issues: seq<Issue>, issue: Issue)
    requires Report(repo, issues) && issue.code != Cycle
    ensures issue in issues <==> exists file, specifier :: file in repo.files && specifier in file.specifiers && Violates(repo, file, specifier, issue)
  {
    hide EveryCycleIsCut, GenuineCycles, Violates, OwnedImportIssues;
    var cycles :| ReportWith(repo, issues, cycles);
    CyclesAreCycles(repo.workspaces, cycles);
    FileIssuesAre(repo, repo.files, issue);
    hide ReportWith, FileIssues;
    forall file, specifier | file in repo.files && specifier in file.specifiers
      ensures issue in OwnedImportIssues(repo, file, specifier) <==> Violates(repo, file, specifier, issue)
    {
      OwnedImportIssuesAre(repo, file, specifier, issue);
    }
  }

  lemma CyclesAreCycles(workspaces: seq<WorkspaceUnit>, cycles: seq<Issue>)
    requires GenuineCycles(ByName(workspaces), cycles)
    ensures forall i :: 0 <= i < |cycles| ==> cycles[i].code == Cycle
  {
    hide ClosedWalk, Distinct, Join;
    forall i | 0 <= i < |cycles|
      ensures cycles[i].code == Cycle
    {
      var path: seq<string> :| CycleWitness(ByName(workspaces), cycles[i], path);
    }
  }

  /** Of several workspaces with one name, the last one counts. */
  lemma {:induction false} ByNameIsLast(workspaces: seq<WorkspaceUnit>, name: string) returns (i: nat)
    requires name in ByName(workspaces)
    ensures i < |workspaces| && workspaces[i].name == name && ByName(workspaces)[name] == workspaces[i]
    ensures forall j :: i < j < |workspaces| ==> workspaces[j].name != name
  {
    i := |workspaces| - 1;
    if workspaces[i].name != name {
      i := ByNameIsLast(workspaces[..|workspaces| - 1], name);
    }
  }

  lemma TargetMember(repo: Repository, file: SourceFile, specifier: string)
    requires repo.Target(file, specifier).Some?
    ensures repo.Target(file, specifier).value in repo.workspaces
  {
    match WorkspaceDependencyName(specifier)
    case Some(name) => ByNameValue(repo.workspaces, name);
    case None => FindOwnerMember(repo.resolvePath(file.path, specifier), repo.workspaces);
  }

  /** A workspace never imports itself by name without an issue: leaving its own name undeclared
      is reported, and declaring it is a cycle. */
  lemma SelfImportIsReported(repo: Repository, issues: seq<Issue>, file: SourceFile, specifier: string, owner: WorkspaceUnit)
    requires repo.DistinctNames() && PREFIX <= specifier && ImportOf(repo, file, specifier, owner, owner)
    requires Report(repo, issues)
    ensures issues != []
  {
    hide Report;
    NoIssuesIff(repo, issues);
    FindOwnerMember(file.path, repo.workspaces);
    MemberByName(repo.workspaces, owner);
    if ImportAllowed(specifier, owner, owner) {
      assert ClosedWalk(repo.Registry(), [owner.name, owner.name]);
    }
  }

  /** Some file of `source` imports `target`, a different workspace. */
  ghost predicate Imports(repo: Repository, source: WorkspaceUnit, target: WorkspaceUnit) {
    source.name != target.name && exists file, specifier :: ImportOf(repo, file, specifier, source, target)
  }

  /** Without issues, what is imported across workspaces was declared, and layers point down. */
  lemma ImportIsDeclared(repo: Repository, source: WorkspaceUnit, target: WorkspaceUnit)
    requires repo.DistinctNames() && AllAllowed(repo) && Imports(repo, source, target)
    ensures Edge(repo.Registry(), source.name, target.name)
    ensures target.kind != App && (target.kind == Module ==> source.kind == App)
  {
    var file, specifier :| ImportOf(repo, file, specifier, source, target);
    assert ImportAllowed(specifier, source, target);
    FindOwnerMember(file.path, repo.workspaces);
    TargetMember(repo, file, specifier);
    MemberByName(repo.workspaces, source);
    MemberByName(repo.workspaces, target);
  }

  ghost predicate ImportPath(repo: Repository, path: seq<WorkspaceUnit>) {
    forall i :: 0 <= i < |path| - 1 ==> Imports(repo, path[i], path[i + 1])
  }

  function Names(path: seq<WorkspaceUnit>): (names: seq<string>)
    ensures |names| == |path| && forall i :: 0 <= i < |path| ==> names[i] == path[i].name
  {
    if path == [] then [] else [path[0].name] + Names(path[1..])
  }

  /** With distinct names and a report without issues, the import graph across workspaces has no
      cycle, and every path in it is at most one app, then at most one module, then packages. */
  lemma CleanImportPaths(repo: Repository, path: seq<WorkspaceUnit>)
    requires repo.DistinctNames() && Report(repo, []) && ImportPath(repo, path)
    ensures |path| >= 2 ==> path[0].name != path[|path| - 1].name
    ensures forall i :: 0 <= i < |path| && path[i].kind == App ==> i == 0
    ensures forall i :: 0 <= i < |path| && path[i].kind == Module ==> i == 0 || (i == 1 && path[0].kind == App)
  {
    hide Report;
    NoIssuesIff(repo, []);
    var names := Names(path);
    forall i | 0 <= i < |path| - 1
      ensures Edge(repo.Registry(), names[i], names[i + 1])
    {
      ImportIsDeclared(repo, path[i], path[i + 1]);
    }
    assert !ClosedWalk(repo.Registry(), names);
    forall i | 0 < i < |path|
      ensures path[i].kind != App && (path[i].kind == Module ==> path[i - 1].kind == App)
    {
      assert Imports(repo, path[i - 1], path[i - 1 + 1]);
      ImportIsDeclared(repo, path[i - 1], path[i]);
    }
    forall i | 0 <= i < |path| && path[i].kind == Module
      ensures i == 0 || (i == 1 && path[0].kind == App)
    {
      assert i > 0 ==> path[i - 1].kind == App;
    }
  }

  lemma {:induction false} BeforeSlashStops(name: string, rest: string)
    requires '/' !in name && (rest == "" || rest[0] == '/')
    ensures BeforeSlash(name + rest) == name
  {
    if name == "" {
      assert name + rest == rest;
    } else {
      assert (name + rest)[1..] == name[1..] + rest;
      BeforeSlashStops(name[1..], rest);
    }
  }

  /** A package and all of its subpaths name the same dependency. */
  lemma DependencyNameOfSubpath(name: string, rest: string)
    requires '/' !in name && (rest == "" || rest[0] == '/')
    ensures WorkspaceDependencyName(PREFIX + name + rest) == Some(PREFIX + name)
  {
    BeforeSlashStops(name, rest);
    assert (PREFIX + name + rest)[|PREFIX|..] == name + rest;
  }
}
