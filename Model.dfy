/**
 * The values the two build goals work on: Maven projects as the host build
 * hands them over, the JSON records they produce, the errors that abort them,
 * and the collaborators whose code is not part of this model.
 */
module Model {
  import opened Wrappers

  /** A build plugin: its `groupId:artifactId` key and the child values of its `<configuration>`, if any. */
  datatype Plugin = Plugin(key: string, configuration: Option<map<string, string>>)

  /** A Maven project of the reactor (`MavenProject`), reduced to what the goals read. */
  datatype Module = Module(
    groupId: string,
    artifactId: string,
    version: string,
    name: string,
    packaging: string,
    properties: map<string, string>,
    buildPlugins: seq<Plugin>)

  /** `MavenProject.equals`: two projects are the same when group, artifact and version agree. */
  predicate SameProject(a: Module, b: Module)
  {
    a.groupId == b.groupId && a.artifactId == b.artifactId && a.version == b.version
  }

  /** The packaging that marks a project as a Gephi plugin module. */
  const NbmPackaging := "nbm"

  /** The property naming the Gephi release a build targets. */
  const GephiVersionProperty := "gephi.version"

  predicate IsNbm(m: Module)
  {
    m.packaging == NbmPackaging
  }

  /**
   * The module tree as `ModuleUtils.getModulesTree` returns it, in the
   * iteration order of its entry set: each top plugin with its member list.
   */
  type Tree = seq<(Module, seq<Module>)>

  /** `ManifestUtils`, identified by the manifest path it was built with. */
  datatype ManifestUtils = ManifestUtils(sourceManifestFile: string)

  /** The fields `readManifestMetadata` copies from a module's manifest into a record. */
  datatype ManifestMetadata = ManifestMetadata(fields: map<string, string>)

  /** One author entry of the JSON output. */
  datatype Author = Author(name: string)

  /** One entry of a plugin's `versions` map: when it was built and where to download it. */
  datatype Version = Version(lastUpdate: string, url: string)

  /** The JSON record describing one plugin (`org.gephi.maven.json.PluginMetadata`). */
  datatype PluginMetadata = PluginMetadata(
    id: string,
    manifest: ManifestMetadata,
    license: Option<string>,
    authors: Option<seq<Author>>,
    lastUpdate: string,
    readme: Option<string>,
    images: seq<string>,
    versions: map<string, Version>)

  /** A newly allocated record, before any field is set. */
  const NewPluginMetadata := PluginMetadata("", ManifestMetadata(map[]), None, None, "", None, [], map[])

  /** The reasons a goal stops, one per exception the source throws. */
  datatype MojoError =
    | MissingGephiVersion          // the executing project has no 'gephi.version' property
    | NotAReactorProject           // the reactor project list is null or empty
    | NoNbmModules                 // no reactor project has 'nbm' packaging
    | NoSuiteDetected              // several 'nbm' modules, but the tree is empty
    | MultipleSuites               // the tree has more than one top plugin
    | MissingLicense(project: string)  // no 'licenseName' configuration on the named project
    | MissingAuthors(project: string)  // no 'author' configuration on the named project
    | ManifestError(message: string)   // raised by the manifest collaborator
    | NullModuleVersion(project: string) // an 'nbm' module without 'gephi.version': a NullPointerException

  /**
   * The code the goals call but that is not part of this model, as total
   * functions of their inputs: the tree builder and download-path computation
   * of `ModuleUtils`, the manifest checks of `ManifestUtils`, the README
   * reader and the screenshot copier.
   */
  datatype Collaborators = Collaborators(
    modulesTree: seq<Module> -> Tree,
    checkManifestShowClientFalse: (ManifestUtils, Module) -> Outcome<string>,
    readManifestMetadata: (ManifestUtils, Module) -> Result<ManifestMetadata, string>,
    moduleDownloadPath: (Module, seq<Module>, string) -> string,
    readme: Module -> Option<string>,
    copyScreenshots: (Module, string, string) -> seq<string>)
}
