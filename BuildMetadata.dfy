/**
 * The `build-metadata` goal: one JSON record per top plugin of the module
 * tree, each with a single download entry for the Gephi release being built.
 */
module BuildMetadata {
  import opened Wrappers
  import opened Sequences
  import opened Model
  import opened MetadataUtils
  import Validate

  /** An 'nbm' module without a `gephi.version` property: the source dereferences null for it. */
  predicate VersionMissing(m: Module)
  {
    IsNbm(m) && GephiVersionProperty !in m.properties
  }

  /** An 'nbm' module built for `gephiVersion`. */
  function BuiltFor(gephiVersion: string): Module -> bool
  {
    m => IsNbm(m) && GephiVersionProperty in m.properties && m.properties[GephiVersionProperty] == gephiVersion
  }

  /** The module selection loop: the first 'nbm' module without the property aborts it. */
  function SelectModules(reactor: seq<Module>, gephiVersion: string): Result<seq<Module>, MojoError>
  {
    match FirstIndex(reactor, VersionMissing)
    case Some(i) => Failure(NullModuleVersion(reactor[i].name))
    case None => Success(Filter(reactor, BuiltFor(gephiVersion)))
  }

  /** The plugin id: `groupId.artifactId` of the top plugin. */
  function PluginId(m: Module): string
  {
    m.groupId + "." + m.artifactId
  }

  /** Where the screenshots of plugin `id` are copied, and the prefix of their references. */
  function ImagesDirectory(outputDirectory: string, id: string): string
  {
    outputDirectory + "/imgs/" + id
  }

  function ImagesPrefix(id: string): string
  {
    "imgs/" + id + "/"
  }

  /** The directory the suite's archives are placed in for this release. */
  function DownloadDirectory(outputDirectory: string, gephiVersion: string): string
  {
    outputDirectory + "/" + gephiVersion
  }

  /** The record of one tree entry, once its manifest has been read. */
  function RecordOf(env: Collaborators, outputDirectory: string, gephiVersion: string, today: string,
                    entry: (Module, seq<Module>), manifest: ManifestMetadata): PluginMetadata
  {
    var (root, members) := entry;
    var id := PluginId(root);
    var url := gephiVersion + "/" + env.moduleDownloadPath(root, members, DownloadDirectory(outputDirectory, gephiVersion));
    PluginMetadata(
      id, manifest, GetLicenseName(root), AuthorsOf(root), today, env.readme(root),
      env.copyScreenshots(root, ImagesDirectory(outputDirectory, id), ImagesPrefix(id)),
      map[gephiVersion := Version(today, url)])
  }

  /** A tree entry whose top plugin's manifest cannot be read. */
  function ManifestUnreadable(env: Collaborators, mu: ManifestUtils): ((Module, seq<Module>)) -> bool
  {
    (entry: (Module, seq<Module>)) => env.readManifestMetadata(mu, entry.0).Failure?
  }

  /** Every top plugin of `tree` has a readable manifest. */
  predicate AllReadable(env: Collaborators, mu: ManifestUtils, tree: Tree)
  {
    forall i :: 0 <= i < |tree| ==> env.readManifestMetadata(mu, tree[i].0).Success?
  }

  /** The records of a tree whose manifests are all readable, one per entry, in tree order. */
  function RecordList(env: Collaborators, mu: ManifestUtils, outputDirectory: string, gephiVersion: string,
                      today: string, tree: Tree): (r: seq<PluginMetadata>)
    requires AllReadable(env, mu, tree)
    ensures |r| == |tree|
    ensures forall i :: 0 <= i < |tree| ==>
      r[i] == RecordOf(env, outputDirectory, gephiVersion, today, tree[i], env.readManifestMetadata(mu, tree[i].0).value)
  {
    if |tree| == 0 then []
    else
      var last := tree[|tree| - 1];
      RecordList(env, mu, outputDirectory, gephiVersion, today, tree[..|tree| - 1])
        + [RecordOf(env, outputDirectory, gephiVersion, today, last, env.readManifestMetadata(mu, last.0).value)]
  }

  /** The records of the whole tree, in tree order; the first unreadable manifest aborts. */
  function Records(env: Collaborators, mu: ManifestUtils, outputDirectory: string, gephiVersion: string,
                   today: string, tree: Tree): Result<seq<PluginMetadata>, MojoError>
  {
    match FirstIndex(tree, ManifestUnreadable(env, mu))
    case Some(i) => Failure(ManifestError(env.readManifestMetadata(mu, tree[i].0).error))
    case None =>
      assert forall i :: 0 <= i < |tree| ==> !ManifestUnreadable(env, mu)(tree[i]);
      Success(RecordList(env, mu, outputDirectory, gephiVersion, today, tree))
  }

  /** With every manifest readable, the records are the list built entry by entry. */
  lemma AllReadableRecords(env: Collaborators, mu: ManifestUtils, outputDirectory: string, gephiVersion: string,
                           today: string, tree: Tree)
    requires AllReadable(env, mu, tree)
    ensures Records(env, mu, outputDirectory, gephiVersion, today, tree) ==
      Success(RecordList(env, mu, outputDirectory, gephiVersion, today, tree))
  {
    assert FirstIndex(tree, ManifestUnreadable(env, mu)).None?;
  }

  /** The first unreadable manifest, after a readable prefix, aborts the records with its error. */
  lemma FirstUnreadable(env: Collaborators, mu: ManifestUtils, outputDirectory: string, gephiVersion: string,
                        today: string, tree: Tree, i: nat)
    requires i < |tree| && AllReadable(env, mu, tree[..i])
    requires env.readManifestMetadata(mu, tree[i].0).Failure?
    ensures Records(env, mu, outputDirectory, gephiVersion, today, tree) ==
      Failure(ManifestError(env.readManifestMetadata(mu, tree[i].0).error))
  {
    assert forall j :: 0 <= j < i ==> tree[..i][j] == tree[j];
    FirstIndexIs(tree, ManifestUnreadable(env, mu), i);
  }

  /** The outcome of the whole goal: the records that `plugins.json` would hold. */
  function Build(env: Collaborators, mu: ManifestUtils, outputDirectory: string, today: string,
                 project: Module, reactor: Option<seq<Module>>): Result<seq<PluginMetadata>, MojoError>
  {
    if GephiVersionProperty !in project.properties then Failure(MissingGephiVersion)
    else if reactor.None? || |reactor.value| == 0 then Failure(NotAReactorProject)
    else
      var gephiVersion := project.properties[GephiVersionProperty];
      match SelectModules(reactor.value, gephiVersion)
      case Failure(e) => Failure(e)
      case Success(modules) => Records(env, mu, outputDirectory, gephiVersion, today, env.modulesTree(modules))
  }

  /** The `build-metadata` goal with its injected parameters. */
  class Mojo {
    const outputDirectory: string
    const sourceManifestFile: string
    const reactorProjects: Option<seq<Module>>
    const project: Module
    const collaborators: Collaborators

    constructor(outputDirectory: string, sourceManifestFile: string, reactorProjects: Option<seq<Module>>,
                project: Module, collaborators: Collaborators)
      ensures this.outputDirectory == outputDirectory && this.sourceManifestFile == sourceManifestFile
      ensures this.reactorProjects == reactorProjects && this.project == project
      ensures this.collaborators == collaborators
    {
      this.outputDirectory := outputDirectory;
      this.sourceManifestFile := sourceManifestFile;
      this.reactorProjects := reactorProjects;
      this.project := project;
      this.collaborators := collaborators;
    }

    /** `execute`: the plugin records, one per tree entry; `today` is the formatted date. */
    method Execute(today: string) returns (r: Result<seq<PluginMetadata>, MojoError>)
      ensures r == Build(collaborators, ManifestUtils(sourceManifestFile), outputDirectory, today, project, reactorProjects)
    {
      if GephiVersionProperty !in project.properties {
        return Failure(MissingGephiVersion);
      }
      var gephiVersion := project.properties[GephiVersionProperty];
      if reactorProjects.None? || |reactorProjects.value| == 0 {
        return Failure(NotAReactorProject);
      }
      var selection := CollectModules(reactorProjects.value, gephiVersion);
      if selection.Failure? {
        return Failure(selection.error);
      }
      var modules := selection.value;

      var manifestUtils := ManifestUtils(sourceManifestFile);
      var tree := collaborators.modulesTree(modules);
      r := BuildRecords(manifestUtils, gephiVersion, today, tree);
    }

    /** The record loop of `execute`: one record per tree entry, stopping at the first unreadable manifest. */
    method BuildRecords(manifestUtils: ManifestUtils, gephiVersion: string, today: string, tree: Tree)
      returns (r: Result<seq<PluginMetadata>, MojoError>)
      ensures r == Records(collaborators, manifestUtils, outputDirectory, gephiVersion, today, tree)
    {
      var pluginMetadatas: seq<PluginMetadata> := [];
      for i := 0 to |tree|
        invariant AllReadable(collaborators, manifestUtils, tree[..i])
        invariant pluginMetadatas == RecordList(collaborators, manifestUtils, outputDirectory, gephiVersion, today, tree[..i])
      {
        var pm := PluginRecord(manifestUtils, gephiVersion, today, tree[i]);
        if pm.Failure? {
          FirstUnreadable(collaborators, manifestUtils, outputDirectory, gephiVersion, today, tree, i);
          return Failure(pm.error);
        }
        assert AllReadable(collaborators, manifestUtils, tree[..i + 1]) &&
          RecordList(collaborators, manifestUtils, outputDirectory, gephiVersion, today, tree[..i + 1])
            == pluginMetadatas + [pm.value] by {
          assert tree[..i + 1][..i] == tree[..i];
        }
        pluginMetadatas := pluginMetadatas + [pm.value];
      }
      assert tree[..|tree|] == tree;
      AllReadableRecords(collaborators, manifestUtils, outputDirectory, gephiVersion, today, tree);
      return Success(pluginMetadatas);
    }

    /** The selection loop of `execute`: 'nbm' modules built for `gephiVersion`, in reactor order. */
    method CollectModules(reactor: seq<Module>, gephiVersion: string) returns (r: Result<seq<Module>, MojoError>)
      ensures r == SelectModules(reactor, gephiVersion)
    {
      ghost var built := BuiltFor(gephiVersion);
      var modules: seq<Module> := [];
      for i := 0 to |reactor|
        invariant forall j :: 0 <= j < i ==> !VersionMissing(reactor[j])
        invariant modules == Filter(reactor[..i], built)
      {
        assert reactor[..i + 1][..i] == reactor[..i];
        var proj := reactor[i];
        if proj.packaging == NbmPackaging {
          if GephiVersionProperty !in proj.properties {
            FirstIndexIs(reactor, VersionMissing, i);
            return Failure(NullModuleVersion(proj.name));
          }
          var gephiVersionModule := proj.properties[GephiVersionProperty];
          if gephiVersionModule == gephiVersion {
            modules := modules + [proj];
          }
        }
      }
      assert reactor[..|reactor|] == reactor;
      return Success(modules);
    }

    /** The body of the record loop of `execute`: one record, filled in field by field. */
    method PluginRecord(manifestUtils: ManifestUtils, gephiVersion: string, today: string, entry: (Module, seq<Module>))
      returns (r: Result<PluginMetadata, MojoError>)
      ensures r.Failure? <==> collaborators.readManifestMetadata(manifestUtils, entry.0).Failure?
      ensures r.Failure? ==> r.error == ManifestError(collaborators.readManifestMetadata(manifestUtils, entry.0).error)
      ensures r.Success? ==> r.value == RecordOf(collaborators, outputDirectory, gephiVersion, today, entry,
                                                 collaborators.readManifestMetadata(manifestUtils, entry.0).value)
    {
      var (topPlugin, members) := entry;
      var pm := NewPluginMetadata;
      pm := pm.(id := topPlugin.groupId + "." + topPlugin.artifactId);
      var manifest := collaborators.readManifestMetadata(manifestUtils, topPlugin);
      if manifest.Failure? {
        return Failure(ManifestError(manifest.error));
      }
      pm := pm.(manifest := manifest.value);
      pm := pm.(license := GetLicenseName(topPlugin));
      var authors := GetAuthors(topPlugin);
      pm := pm.(authors := authors);
      pm := pm.(lastUpdate := today);
      pm := pm.(readme := collaborators.readme(topPlugin));
      pm := pm.(images := collaborators.copyScreenshots(topPlugin, ImagesDirectory(outputDirectory, pm.id), ImagesPrefix(pm.id)));
      var v := Version(today, gephiVersion + "/" +
        collaborators.moduleDownloadPath(topPlugin, members, DownloadDirectory(outputDirectory, gephiVersion)));
      pm := pm.(versions := pm.versions[gephiVersion := v]);
      return Success(pm);
    }
  }

  // ------------------------------------------------------------ properties

  /** A build without `gephi.version` fails before the reactor is looked at. */
  lemma VersionRequiredFirst(env: Collaborators, mu: ManifestUtils, outputDirectory: string, today: string,
                             project: Module, reactor: Option<seq<Module>>)
    requires GephiVersionProperty !in project.properties
    ensures Build(env, mu, outputDirectory, today, project, reactor) == Failure(MissingGephiVersion)
  {
  }

  /** With the version known, a null or empty reactor list fails, and is the only cause of that error. */
  lemma ReactorRequired(env: Collaborators, mu: ManifestUtils, outputDirectory: string, today: string,
                        project: Module, reactor: Option<seq<Module>>)
    requires GephiVersionProperty in project.properties
    ensures Build(env, mu, outputDirectory, today, project, reactor) == Failure(NotAReactorProject) <==>
      reactor.None? || reactor.value == []
  {
  }

  /**
   * The selection fails exactly when some 'nbm' module lacks `gephi.version`
   * (reporting the first), and otherwise keeps a module exactly when it is an
   * 'nbm' module built for the same release, preserving reactor order.
   */
  lemma {:induction false} Selection(a: seq<Module>, b: seq<Module>, gephiVersion: string)
    ensures SelectModules(a, gephiVersion).Failure? <==> exists i :: 0 <= i < |a| && VersionMissing(a[i])
    ensures forall i :: 0 <= i < |a| && VersionMissing(a[i]) && (forall j :: 0 <= j < i ==> !VersionMissing(a[j])) ==>
      SelectModules(a, gephiVersion) == Failure(NullModuleVersion(a[i].name))
    ensures SelectModules(a, gephiVersion).Success? ==>
      var selected := SelectModules(a, gephiVersion).value;
      && (forall i :: 0 <= i < |selected| ==>
            selected[i] in a && IsNbm(selected[i]) && selected[i].properties[GephiVersionProperty] == gephiVersion)
      && (forall i :: 0 <= i < |a| && IsNbm(a[i]) && a[i].properties[GephiVersionProperty] == gephiVersion ==> a[i] in selected)
    ensures SelectModules(a, gephiVersion).Success? && SelectModules(b, gephiVersion).Success? ==>
      SelectModules(a + b, gephiVersion) == Success(SelectModules(a, gephiVersion).value + SelectModules(b, gephiVersion).value)
  {
    FilterConcat(a, b, BuiltFor(gephiVersion));
    forall i | 0 <= i < |a| && VersionMissing(a[i]) && (forall j :: 0 <= j < i ==> !VersionMissing(a[j]))
      ensures SelectModules(a, gephiVersion) == Failure(NullModuleVersion(a[i].name))
    {
      FirstIndexIs(a, VersionMissing, i);
    }
    if SelectModules(a, gephiVersion).Success? && SelectModules(b, gephiVersion).Success? {
      assert forall i :: 0 <= i < |a + b| ==> !VersionMissing((a + b)[i]) by {
        forall i | 0 <= i < |a + b| ensures !VersionMissing((a + b)[i]) {
          if i >= |a| { assert (a + b)[i] == b[i - |a|]; }
        }
      }
    }
  }

  /**
   * One record per tree entry, in tree order, with no single-suite rule: the
   * record of entry `i` has the root's id, its license and authors as read
   * (absent ones stay absent), and a `versions` map with the build's release
   * as its only key, whose url is that release, a slash and the download path.
   */
  lemma RecordsShape(env: Collaborators, mu: ManifestUtils, outputDirectory: string, gephiVersion: string,
                     today: string, tree: Tree)
    ensures Records(env, mu, outputDirectory, gephiVersion, today, tree).Success? <==>
      forall i :: 0 <= i < |tree| ==> env.readManifestMetadata(mu, tree[i].0).Success?
    ensures Records(env, mu, outputDirectory, gephiVersion, today, tree).Success? ==>
      var records := Records(env, mu, outputDirectory, gephiVersion, today, tree).value;
      |records| == |tree| &&
      forall i :: 0 <= i < |tree| ==>
        var (root, members) := tree[i];
        && records[i].id == root.groupId + "." + root.artifactId
        && records[i].license == GetLicenseName(root)
        && records[i].authors == AuthorsOf(root)
        && records[i].versions.Keys == {gephiVersion}
        && records[i].versions[gephiVersion].url ==
             gephiVersion + "/" + env.moduleDownloadPath(root, members, DownloadDirectory(outputDirectory, gephiVersion))
  {
  }

  /**
   * Two builds that differ only in the release label give records with the
   * same ids, each `versions` map holding one entry keyed by its own label.
   */
  lemma PerReleaseVersions(env: Collaborators, mu: ManifestUtils, outputDirectory: string, today: string,
                           tree: Tree, v1: string, v2: string)
    requires Records(env, mu, outputDirectory, v1, today, tree).Success?
    ensures Records(env, mu, outputDirectory, v2, today, tree).Success?
    ensures var r1 := Records(env, mu, outputDirectory, v1, today, tree).value;
      var r2 := Records(env, mu, outputDirectory, v2, today, tree).value;
      |r1| == |r2| &&
      forall i :: 0 <= i < |r1| ==>
        r1[i].id == r2[i].id && r1[i].versions.Keys == {v1} && r2[i].versions.Keys == {v2} && |r1[i].versions| == 1
  {
    RecordsShape(env, mu, outputDirectory, v1, today, tree);
    RecordsShape(env, mu, outputDirectory, v2, today, tree);
  }

  /**
   * Metadata building tolerates several suites where validation refuses
   * them: when every 'nbm' module targets the build's release, both goals
   * see the same tree, and a tree of two or more readable suites gives one
   * record per suite here but `MultipleSuites` there.
   */
  lemma SuitesAsymmetry(env: Collaborators, mu: ManifestUtils, outputDirectory: string, today: string,
                        project: Module, reactor: seq<Module>)
    requires GephiVersionProperty in project.properties
    requires forall i :: 0 <= i < |reactor| && IsNbm(reactor[i]) ==>
      GephiVersionProperty in reactor[i].properties
      && reactor[i].properties[GephiVersionProperty] == project.properties[GephiVersionProperty]
    requires |Validate.NbmModules(reactor)| > 1
    requires |env.modulesTree(Validate.NbmModules(reactor))| > 1
    requires forall i :: 0 <= i < |env.modulesTree(Validate.NbmModules(reactor))| ==>
      env.readManifestMetadata(mu, env.modulesTree(Validate.NbmModules(reactor))[i].0).Success?
    ensures Validate.Validation(env, mu, Some(reactor)) == Fail(MultipleSuites)
    ensures Build(env, mu, outputDirectory, today, project, Some(reactor)).Success?
    ensures |Build(env, mu, outputDirectory, today, project, Some(reactor)).value| == |env.modulesTree(Validate.NbmModules(reactor))|
  {
    var v := project.properties[GephiVersionProperty];
    SameSelection(reactor, v);
    RecordsShape(env, mu, outputDirectory, v, today, env.modulesTree(Validate.NbmModules(reactor)));
  }

  /** When every 'nbm' module targets release `v`, selection keeps exactly the 'nbm' modules. */
  lemma {:induction false} SameSelection(reactor: seq<Module>, v: string)
    requires forall i :: 0 <= i < |reactor| && IsNbm(reactor[i]) ==>
      GephiVersionProperty in reactor[i].properties && reactor[i].properties[GephiVersionProperty] == v
    ensures SelectModules(reactor, v) == Success(Validate.NbmModules(reactor))
  {
    if |reactor| > 0 {
      var init := reactor[..|reactor| - 1];
      SameSelection(init, v);
    }
  }
}
