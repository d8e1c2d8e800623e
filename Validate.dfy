/**
 * The `validate` goal: checks that the reactor holds one Gephi plugin suite
 * whose internal modules stay hidden from the client and whose top plugin
 * declares a license and authors.
 */
module Validate {
  import opened Wrappers
  import opened Sequences
  import opened Model
  import opened MetadataUtils

  /** The candidates: the reactor projects with 'nbm' packaging, in reactor order. */
  function NbmModules(reactor: seq<Module>): seq<Module>
  {
    Filter(reactor, IsNbm)
  }

  /** The members of a suite other than its top plugin: the first occurrence of the root is removed. */
  function Children(root: Module, members: seq<Module>): seq<Module>
  {
    RemoveFirst(members, root, SameProject)
  }

  /**
   * The outcome of `checkMetadata`: license, then authors, then the manifest
   * of `project`. `getAuthors` is null exactly when the `author` value is
   * absent, so only that value's presence is consulted here.
   */
  function MetadataOutcome(env: Collaborators, mu: ManifestUtils, project: Module): Outcome<MojoError>
  {
    if GetLicenseName(project).None? then Fail(MissingLicense(project.name))
    else if ConfigChild(project, AuthorChild).None? then Fail(MissingAuthors(project.name))
    else match env.readManifestMetadata(mu, project)
      case Failure(e) => Fail(ManifestError(e))
      case Success(_) => Pass
  }

  /** A child whose manifest fails the show-in-client check. */
  function ShownInClient(env: Collaborators, mu: ManifestUtils): Module -> bool
  {
    c => env.checkManifestShowClientFalse(mu, c).Fail?
  }

  /** The outcome of checking every child in order: the first child that fails decides. */
  function ChildrenOutcome(env: Collaborators, mu: ManifestUtils, children: seq<Module>): Outcome<MojoError>
  {
    match FirstIndex(children, ShownInClient(env, mu))
    case None => Pass
    case Some(i) => Fail(ManifestError(env.checkManifestShowClientFalse(mu, children[i]).error))
  }

  /** The outcome of `executeMultiModuleProject`: one suite, hidden children, then the root's metadata. */
  function MultiModuleOutcome(env: Collaborators, mu: ManifestUtils, modules: seq<Module>): Outcome<MojoError>
  {
    var tree := env.modulesTree(modules);
    if |tree| == 0 then Fail(NoSuiteDetected)
    else if |tree| > 1 then Fail(MultipleSuites)
    else
      var (root, members) := tree[0];
      match ChildrenOutcome(env, mu, Children(root, members))
      case Fail(e) => Fail(e)
      case Pass => MetadataOutcome(env, mu, root)
  }

  /** The outcome of the whole goal on the reactor list (`None` for a null list). */
  function Validation(env: Collaborators, mu: ManifestUtils, reactor: Option<seq<Module>>): Outcome<MojoError>
  {
    if reactor.None? || |reactor.value| == 0 then Fail(NotAReactorProject)
    else
      var modules := NbmModules(reactor.value);
      if |modules| == 0 then Fail(NoNbmModules)
      else if |modules| == 1 then MetadataOutcome(env, mu, modules[0])
      else MultiModuleOutcome(env, mu, modules)
  }

  /** The `validate` goal with its injected parameters and its `manifestUtils` field. */
  class Mojo {
    const sourceManifestFile: string
    const reactorProjects: Option<seq<Module>>
    const collaborators: Collaborators
    var manifestUtils: Option<ManifestUtils>

    constructor(sourceManifestFile: string, reactorProjects: Option<seq<Module>>, collaborators: Collaborators)
      ensures this.sourceManifestFile == sourceManifestFile
      ensures this.reactorProjects == reactorProjects
      ensures this.collaborators == collaborators
      ensures manifestUtils == None
    {
      this.sourceManifestFile := sourceManifestFile;
      this.reactorProjects := reactorProjects;
      this.collaborators := collaborators;
      manifestUtils := None;
    }

    /** `execute`: succeeds, or stops with the first violated rule. */
    method Execute() returns (r: Outcome<MojoError>)
      modifies this
      ensures manifestUtils == Some(ManifestUtils(sourceManifestFile))
      ensures r == Validation(collaborators, ManifestUtils(sourceManifestFile), reactorProjects)
    {
      manifestUtils := Some(ManifestUtils(sourceManifestFile));
      if reactorProjects.Some? && |reactorProjects.value| > 0 {
        var reactor := reactorProjects.value;
        var modules: seq<Module> := [];
        for i := 0 to |reactor|
          invariant modules == NbmModules(reactor[..i])
        {
          assert reactor[..i + 1][..i] == reactor[..i];
          if reactor[i].packaging == NbmPackaging {
            modules := modules + [reactor[i]];
          }
        }
        assert reactor[..|reactor|] == reactor;
        if |modules| == 0 {
          r := Fail(NoNbmModules);
        } else if |modules| == 1 {
          r := ExecuteSingleModuleProject(modules[0]);
        } else {
          r := ExecuteMultiModuleProject(modules);
        }
      } else {
        r := Fail(NotAReactorProject);
      }
    }

    /** `executeSingleModuleProject`: a lone module is checked as a top plugin. */
    method ExecuteSingleModuleProject(project: Module) returns (r: Outcome<MojoError>)
      requires manifestUtils.Some?
      ensures r == MetadataOutcome(collaborators, manifestUtils.value, project)
    {
      r := CheckMetadata(project);
    }

    /** `executeMultiModuleProject`: exactly one suite, every child hidden, then the root's metadata. */
    method ExecuteMultiModuleProject(projects: seq<Module>) returns (r: Outcome<MojoError>)
      requires manifestUtils.Some?
      ensures r == MultiModuleOutcome(collaborators, manifestUtils.value, projects)
    {
      var tree := collaborators.modulesTree(projects);
      if |tree| == 0 {
        return Fail(NoSuiteDetected);
      } else if |tree| > 1 {
        return Fail(MultipleSuites);
      }
      var entry := tree[0];
      var children := entry.1;
      children := Children(entry.0, children);  // children.remove(root)
      r := CheckChildren(children);
      if r.Fail? {
        return;
      }
      r := CheckMetadata(entry.0);
    }

    /** The children loop of `executeMultiModuleProject`: the first child shown in the client fails. */
    method CheckChildren(children: seq<Module>) returns (r: Outcome<MojoError>)
      requires manifestUtils.Some?
      ensures r == ChildrenOutcome(collaborators, manifestUtils.value, children)
    {
      var i := 0;
      while i < |children|
        invariant 0 <= i <= |children|
        invariant forall j :: 0 <= j < i ==> collaborators.checkManifestShowClientFalse(manifestUtils.value, children[j]).Pass?
      {
        var check := collaborators.checkManifestShowClientFalse(manifestUtils.value, children[i]);
        if check.Fail? {
          FirstShownChild(collaborators, manifestUtils.value, children, i);
          return Fail(ManifestError(check.error));
        }
        i := i + 1;
      }
      ChildrenPass(collaborators, manifestUtils.value, children);
      return Pass;
    }

    /** `checkMetadata`: a license, then an author list, then a readable manifest. */
    method CheckMetadata(project: Module) returns (r: Outcome<MojoError>)
      requires manifestUtils.Some?
      ensures r == MetadataOutcome(collaborators, manifestUtils.value, project)
    {
      if GetLicenseName(project).None? {
        return Fail(MissingLicense(project.name));
      }
      var authors := GetAuthors(project);
      if authors.None? {
        return Fail(MissingAuthors(project.name));
      }
      var manifest := collaborators.readManifestMetadata(manifestUtils.value, project);
      if manifest.Failure? {
        return Fail(ManifestError(manifest.error));
      }
      return Pass;
    }
  }

  // ------------------------------------------------------------ properties

  /** A null or empty reactor list is reported before anything else, and is the only cause of that error. */
  lemma ReactorRequired(env: Collaborators, mu: ManifestUtils, reactor: Option<seq<Module>>)
    ensures Validation(env, mu, reactor) == Fail(NotAReactorProject) <==> reactor.None? || reactor.value == []
  {
  }

  /** The candidates are exactly the 'nbm' projects of the reactor, in reactor order. */
  lemma {:induction false} CandidatesAreNbmProjects(a: seq<Module>, b: seq<Module>)
    ensures forall i :: 0 <= i < |NbmModules(a)| ==> NbmModules(a)[i] in a && IsNbm(NbmModules(a)[i])
    ensures forall i :: 0 <= i < |a| && IsNbm(a[i]) ==> a[i] in NbmModules(a)
    ensures NbmModules(a + b) == NbmModules(a) + NbmModules(b)
  {
    FilterConcat(a, b, IsNbm);
  }

  /** A reactor without 'nbm' projects fails with `NoNbmModules`, and nothing else does. */
  lemma NoCandidates(env: Collaborators, mu: ManifestUtils, reactor: Option<seq<Module>>)
    ensures Validation(env, mu, reactor) == Fail(NoNbmModules) <==>
      reactor.Some? && reactor.value != [] && forall i :: 0 <= i < |reactor.value| ==> !IsNbm(reactor.value[i])
  {
    if reactor.Some? && reactor.value != [] {
      var modules := NbmModules(reactor.value);
      if modules != [] {
        assert modules[0] in reactor.value;
      }
    }
  }

  /**
   * With a single candidate neither the tree builder nor the show-in-client
   * check is consulted: only that module's metadata decides.
   */
  lemma SingleCandidate(env: Collaborators, env': Collaborators, mu: ManifestUtils, reactor: seq<Module>)
    requires |NbmModules(reactor)| == 1
    requires env'.readManifestMetadata == env.readManifestMetadata
    ensures Validation(env, mu, Some(reactor)) == MetadataOutcome(env, mu, NbmModules(reactor)[0])
    ensures Validation(env, mu, Some(reactor)) == Validation(env', mu, Some(reactor))
  {
  }

  /** With several candidates, success needs a tree of exactly one suite; no tree or several trees fail. */
  lemma SuiteRule(env: Collaborators, mu: ManifestUtils, reactor: seq<Module>)
    requires |NbmModules(reactor)| > 1
    ensures |env.modulesTree(NbmModules(reactor))| == 0 ==> Validation(env, mu, Some(reactor)) == Fail(NoSuiteDetected)
    ensures |env.modulesTree(NbmModules(reactor))| > 1 ==> Validation(env, mu, Some(reactor)) == Fail(MultipleSuites)
    ensures Validation(env, mu, Some(reactor)) == Pass ==> |env.modulesTree(NbmModules(reactor))| == 1
  {
  }

  /**
   * In a single suite, the children are checked before the root's metadata:
   * when one fails the show-in-client check, the first such child's error is
   * the outcome whatever the root declares; success means every child passed
   * and the root's metadata is complete.
   */
  lemma ChildrenBeforeRoot(env: Collaborators, mu: ManifestUtils, reactor: seq<Module>)
    requires |NbmModules(reactor)| > 1
    requires |env.modulesTree(NbmModules(reactor))| == 1
    ensures var (root, members) := env.modulesTree(NbmModules(reactor))[0];
      var children := Children(root, members);
      && (forall i :: 0 <= i < |children| && env.checkManifestShowClientFalse(mu, children[i]).Fail?
            && (forall j :: 0 <= j < i ==> env.checkManifestShowClientFalse(mu, children[j]).Pass?)
            ==> Validation(env, mu, Some(reactor)) == Fail(ManifestError(env.checkManifestShowClientFalse(mu, children[i]).error)))
      && (Validation(env, mu, Some(reactor)) == Pass <==>
            (forall i :: 0 <= i < |children| ==> env.checkManifestShowClientFalse(mu, children[i]).Pass?)
            && MetadataOutcome(env, mu, root) == Pass)
  {
    var (root, members) := env.modulesTree(NbmModules(reactor))[0];
    var children := Children(root, members);
    var childrenOutcome := ChildrenOutcome(env, mu, children);
    assert Validation(env, mu, Some(reactor)) ==
      if childrenOutcome.Fail? then childrenOutcome else MetadataOutcome(env, mu, root);
    ChildrenPass(env, mu, children);
    forall i | 0 <= i < |children| && env.checkManifestShowClientFalse(mu, children[i]).Fail?
        && (forall j :: 0 <= j < i ==> env.checkManifestShowClientFalse(mu, children[j]).Pass?)
      ensures Validation(env, mu, Some(reactor)) == Fail(ManifestError(env.checkManifestShowClientFalse(mu, children[i]).error))
    {
      FirstShownChild(env, mu, children, i);
    }
  }

  /** The children's check passes exactly when every child passes the show-in-client check. */
  lemma ChildrenPass(env: Collaborators, mu: ManifestUtils, children: seq<Module>)
    ensures ChildrenOutcome(env, mu, children) == Pass <==>
      forall i :: 0 <= i < |children| ==> env.checkManifestShowClientFalse(mu, children[i]).Pass?
  {
    var shown := ShownInClient(env, mu);
    if FirstIndex(children, shown).Some? {
      var i := FirstIndex(children, shown).value;
      assert shown(children[i]);
    }
  }

  /** The first child that fails the show-in-client check gives the children's outcome. */
  lemma FirstShownChild(env: Collaborators, mu: ManifestUtils, children: seq<Module>, i: nat)
    requires i < |children| && env.checkManifestShowClientFalse(mu, children[i]).Fail?
    requires forall j :: 0 <= j < i ==> env.checkManifestShowClientFalse(mu, children[j]).Pass?
    ensures ChildrenOutcome(env, mu, children) == Fail(ManifestError(env.checkManifestShowClientFalse(mu, children[i]).error))
  {
    FirstIndexIs(children, ShownInClient(env, mu), i);
  }

  /** The children never include the first member equal to the root; the other members all stay. */
  lemma ChildrenExcludeRoot(root: Module, members: seq<Module>)
    ensures (forall j :: 0 <= j < |members| ==> !SameProject(members[j], root)) ==> Children(root, members) == members
    ensures forall i :: (0 <= i < |members| && SameProject(members[i], root)
      && (forall j :: 0 <= j < i ==> !SameProject(members[j], root))) ==>
      |Children(root, members)| == |members| - 1 && members == Children(root, members)[..i] + [members[i]] + Children(root, members)[i..]
  {
    forall i | 0 <= i < |members| && SameProject(members[i], root) && (forall j :: 0 <= j < i ==> !SameProject(members[j], root))
      ensures |Children(root, members)| == |members| - 1
      ensures members == Children(root, members)[..i] + [members[i]] + Children(root, members)[i..]
    {
      FirstIndexIs(members, SameAs(root, SameProject), i);
    }
  }

  /**
   * `checkMetadata` reports a missing license before missing authors, and
   * reads the manifest only once both are present.
   */
  lemma MetadataOrder(env: Collaborators, mu: ManifestUtils, project: Module)
    ensures GetLicenseName(project).None? ==> MetadataOutcome(env, mu, project) == Fail(MissingLicense(project.name))
    ensures GetLicenseName(project).Some? && AuthorsOf(project).None? ==>
      MetadataOutcome(env, mu, project) == Fail(MissingAuthors(project.name))
    ensures GetLicenseName(project).Some? && AuthorsOf(project).Some? ==>
      (MetadataOutcome(env, mu, project) == Pass <==> env.readManifestMetadata(mu, project).Success?)
  {
  }

  /** Only absence is tested: an `author` value of `","` gives an empty author list, which passes. */
  lemma EmptyAuthorListPasses(env: Collaborators, mu: ManifestUtils, project: Module)
    requires GetLicenseName(project).Some?
    requires ConfigChild(project, AuthorChild) == Some(",")
    requires env.readManifestMetadata(mu, project).Success?
    ensures AuthorsOf(project) == Some([])
    ensures MetadataOutcome(env, mu, project) == Pass
  {
    AuthorExamples();
  }
}
