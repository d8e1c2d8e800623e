/**
 * Reading a plugin's metadata from the configuration of its
 * `nbm-maven-plugin`: the license name and the comma-separated author list.
 */
module MetadataUtils {
  import opened Wrappers
  import opened Sequences
  import opened JavaStrings
  import opened Model

  /** The key of the plugin whose configuration holds the metadata. */
  const NbmPluginKey := "org.codehaus.mojo:nbm-maven-plugin"

  const LicenseNameChild := "licenseName"
  const AuthorChild := "author"

  predicate IsNbmPlugin(p: Plugin)
  {
    EqualsIgnoreCase(NbmPluginKey, p.key)
  }

  /** `i` is the position of the first nbm plugin of `plugins`. */
  predicate FirstNbmPluginAt(plugins: seq<Plugin>, i: int)
  {
    0 <= i < |plugins| && IsNbmPlugin(plugins[i]) && forall j :: 0 <= j < i ==> !IsNbmPlugin(plugins[j])
  }

  /** The first nbm plugin of `plugins` is at `i` and its configuration has the child `child`. */
  predicate HasChildAt(plugins: seq<Plugin>, i: int, child: string)
  {
    FirstNbmPluginAt(plugins, i) && plugins[i].configuration.Some? && child in plugins[i].configuration.value
  }

  /** The position of the first build plugin whose key is the nbm plugin's, ignoring case. */
  function NbmPluginIndex(plugins: seq<Plugin>): (r: Option<nat>)
    ensures r.None? <==> forall i :: 0 <= i < |plugins| ==> !IsNbmPlugin(plugins[i])
    ensures r.Some? ==> FirstNbmPluginAt(plugins, r.value)
  {
    FirstIndex(plugins, IsNbmPlugin)
  }

  /** There is at most one first nbm plugin. */
  lemma FirstNbmPluginUnique(plugins: seq<Plugin>, i: int, j: int)
    requires FirstNbmPluginAt(plugins, i) && FirstNbmPluginAt(plugins, j)
    ensures i == j
  {
  }

  /** The first build plugin whose key is the nbm plugin's, ignoring case. */
  function NbmPlugin(project: Module): (r: Option<Plugin>)
    ensures r.None? <==> forall i :: 0 <= i < |project.buildPlugins| ==> !IsNbmPlugin(project.buildPlugins[i])
    ensures forall i :: FirstNbmPluginAt(project.buildPlugins, i) ==> r == Some(project.buildPlugins[i])
  {
    match NbmPluginIndex(project.buildPlugins)
    case None => None
    case Some(i) => Some(project.buildPlugins[i])
  }

  /** `lookupNbmPlugin`: scan the build plugins in order and stop at the first nbm plugin. */
  method LookupNbmPlugin(project: Module) returns (r: Option<Plugin>)
    ensures r == NbmPlugin(project)
  {
    var plugins := project.buildPlugins;
    var i := 0;
    while i < |plugins|
      invariant 0 <= i <= |plugins|
      invariant forall j :: 0 <= j < i ==> !IsNbmPlugin(plugins[j])
    {
      if EqualsIgnoreCase(NbmPluginKey, plugins[i].key) {
        FirstIndexIs(plugins, IsNbmPlugin, i);
        return Some(plugins[i]);
      }
      i := i + 1;
    }
    return None;
  }

  /**
   * The value of the configuration child `child` of the nbm plugin: absent
   * when there is no nbm plugin, when it has no configuration, or when the
   * configuration has no such child.
   */
  function ConfigChild(project: Module, child: string): (r: Option<string>)
    ensures r.Some? <==> exists i :: HasChildAt(project.buildPlugins, i, child)
    ensures forall i :: HasChildAt(project.buildPlugins, i, child) ==>
      r == Some(project.buildPlugins[i].configuration.value[child])
  {
    var plugins := project.buildPlugins;
    match NbmPluginIndex(plugins)
    case None => None
    case Some(i) =>
      assert forall j :: HasChildAt(plugins, j, child) ==> j == i;
      match plugins[i].configuration
      case None => None
      case Some(config) =>
        if child in config then
          assert HasChildAt(plugins, i, child);
          Some(config[child])
        else None
  }

  /**
   * `getLicenseName`: the `licenseName` child of the nbm plugin's
   * configuration, unchanged; absent exactly when one of the three lookups fails.
   */
  function GetLicenseName(project: Module): (r: Option<string>)
    ensures r.None? <==>
      || NbmPlugin(project).None?
      || NbmPlugin(project).value.configuration.None?
      || LicenseNameChild !in NbmPlugin(project).value.configuration.value
    ensures r.Some? ==>
      && NbmPlugin(project).Some?
      && NbmPlugin(project).value.configuration.Some?
      && LicenseNameChild in NbmPlugin(project).value.configuration.value
      && r.value == NbmPlugin(project).value.configuration.value[LicenseNameChild]
  {
    ConfigChild(project, LicenseNameChild)
  }

  /** The authors named by an `author` value: its comma-separated pieces, each trimmed. */
  function AuthorList(value: string): seq<Author>
  {
    TrimmedAuthors(Split(value))
  }

  /** One author per piece, named by the trimmed piece, in order. */
  function TrimmedAuthors(pieces: seq<string>): (r: seq<Author>)
    ensures |r| == |pieces|
    ensures forall i :: 0 <= i < |pieces| ==> r[i] == Author(Trim(pieces[i]))
  {
    if |pieces| == 0 then [] else TrimmedAuthors(pieces[..|pieces| - 1]) + [Author(Trim(pieces[|pieces| - 1]))]
  }

  /**
   * No author name contains a comma or starts or ends with a character up to
   * U+0020, and there are at most one more authors than commas.
   */
  lemma AuthorNamesClean(value: string)
    ensures |AuthorList(value)| <= Occurrences(value, ',') + 1
    ensures forall i :: 0 <= i < |AuthorList(value)| ==>
      ',' !in AuthorList(value)[i].name && Unpadded(AuthorList(value)[i].name)
  {
    var pieces := Split(value);
    forall i | 0 <= i < |pieces| ensures ',' !in Trim(pieces[i]) {
      TrimKeepsOut(pieces[i], ',');
    }
  }

  /** The authors of `project`, or absent when its `author` configuration is absent. */
  function AuthorsOf(project: Module): Option<seq<Author>>
  {
    match ConfigChild(project, AuthorChild)
    case None => None
    case Some(value) => Some(AuthorList(value))
  }

  /** `getAuthors`: split the `author` value on commas and collect the trimmed pieces in order. */
  method GetAuthors(project: Module) returns (r: Option<seq<Author>>)
    ensures r == AuthorsOf(project)
  {
    var nbmPlugin := LookupNbmPlugin(project);
    if nbmPlugin.Some? {
      var config := nbmPlugin.value.configuration;
      if config.Some? && AuthorChild in config.value {
        var authors := AuthorNames(config.value[AuthorChild]);
        return Some(authors);
      }
    }
    return None;
  }

  /** The loop of `getAuthors`: one author per piece of the split value, trimmed, in order. */
  method AuthorNames(value: string) returns (authors: seq<Author>)
    ensures authors == AuthorList(value)
  {
    var pieces := Split(value);
    authors := [];
    for i := 0 to |pieces|
      invariant authors == TrimmedAuthors(pieces[..i])
    {
      assert pieces[..i + 1][..i] == pieces[..i];
      authors := authors + [Author(Trim(pieces[i]))];
    }
    assert pieces[..|pieces|] == pieces;
  }

  /** The author list is absent under the same three conditions as the license name. */
  lemma AuthorsAbsent(project: Module)
    ensures AuthorsOf(project).None? <==>
      || NbmPlugin(project).None?
      || NbmPlugin(project).value.configuration.None?
      || AuthorChild !in NbmPlugin(project).value.configuration.value
  {
  }

  /**
   * The author names are the comma-separated pieces of the value in their
   * original order, each trimmed; the pieces left over are the trailing
   * empty ones, and the pieces joined by commas give back the value.
   */
  lemma AuthorsAreTrimmedPieces(value: string)
    ensures |AuthorList(value)| <= |Pieces(value)|
    ensures forall i :: 0 <= i < |AuthorList(value)| ==> AuthorList(value)[i].name == Trim(Pieces(value)[i])
    ensures forall i :: |AuthorList(value)| <= i < |Pieces(value)| ==> Pieces(value)[i] == ""
    ensures ',' in value && |AuthorList(value)| > 0 ==> Pieces(value)[|AuthorList(value)| - 1] != ""
    ensures Join(Pieces(value)) == value
  {
    JoinPieces(value);
    SplitKeepsPieces(value);
    var pieces, kept, authors := Pieces(value), Split(value), AuthorList(value);
    assert |authors| == |kept| && kept == pieces[..|kept|];
    forall i | 0 <= i < |authors| ensures authors[i].name == Trim(pieces[i]) {
      assert kept[i] == pieces[i];
    }
    if ',' in value && |authors| > 0 {
      assert pieces[|kept| - 1] == kept[|kept| - 1];
    }
  }

  /** A value without commas names exactly one author, the trimmed value, even when it is empty. */
  lemma SingleAuthor(value: string)
    requires ',' !in value
    ensures AuthorList(value) == [Author(Trim(value))]
  {
  }

  /** Trailing empty pieces are dropped: `"a,b,"` names two authors and `","` none. */
  lemma AuthorExamples()
    ensures AuthorList("a,b,") == [Author("a"), Author("b")]
    ensures AuthorList(",") == []
    ensures AuthorList("") == [Author("")]
  {
    TrailingCommaExample();
    LoneCommaExample();
    assert Trim("") == "";
  }

  /** `"a,b,"`: the trailing empty piece is dropped, leaving two authors. */
  lemma TrailingCommaExample()
    ensures AuthorList("a,b,") == [Author("a"), Author("b")]
  {
    assert Split("a,b,") == ["a", "b"] by {
      SplitExamples();
    }
    assert TrimmedAuthors(["a", "b"]) == [Author("a"), Author("b")] by {
      TrimExamples();
      var authors := TrimmedAuthors(["a", "b"]);
      assert authors[0] == Author(Trim(["a", "b"][0])) && authors[1] == Author(Trim(["a", "b"][1]));
    }
  }

  /** `","`: both pieces are empty and trailing, so no author remains. */
  lemma LoneCommaExample()
    ensures AuthorList(",") == []
  {
    SplitExamples();
  }

  /** `split(",")` of the two comma-terminated examples. */
  lemma SplitExamples()
    ensures Split("a,b,") == ["a", "b"]
    ensures Split(",") == []
  {
    PiecesExamples();
    assert Split("a,b,") == DropTrailingEmpty(["a", "b", ""]) == ["a", "b"];
    assert Split(",") == DropTrailingEmpty(["", ""]) == [];
  }

  /** Single letters are left unchanged by `trim`. */
  lemma TrimExamples()
    ensures Trim("a") == "a" && Trim("b") == "b"
  {
  }

  /** The raw pieces of the two comma-terminated examples. */
  lemma PiecesExamples()
    ensures Pieces("a,b,") == ["a", "b", ""]
    ensures Pieces(",") == ["", ""]
  {
    assert ","[1..] == "" && "b,"[1..] == "," && ",b,"[1..] == "b," && "a,b,"[1..] == ",b,";
    assert Pieces(",") == ["", ""];
    assert ['b'] + "" == "b" && ['a'] + "" == "a";
    assert Pieces("b,") == [['b'] + ""] + ["", ""][1..] == ["b", ""];
    assert Pieces(",b,") == ["", "b", ""];
    assert Pieces("a,b,") == [['a'] + ""] + ["", "b", ""][1..] == ["a", "b", ""];
  }
}
