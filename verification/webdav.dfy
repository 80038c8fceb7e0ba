/** The WebDAV http-01 validation plugin: which targets it accepts, how it
    fills in a target's web root and credentials, and its emptiness check.
    Uploads and deletes go over the network and are not modelled. */
module WebDav {
  import opened Wrappers
  import opened DotNetStrings
  import opened Targets

  const Name: string := "WebDav"
  const Description: string := "Upload verification file to WebDav path"
  const ChallengeType: string := "http-01"

  /** The UNC prefix: two backslash characters. */
  const UncPrefix: string := "\\\\"

  /** `WebDavFactory.CanValidate`: the web root is unset, or a UNC path, that
      is, it starts with two backslash characters. */
  function CanValidate(t: Target): (b: bool)
    ensures b <==>
              || t.webRootPath.None?
              || t.webRootPath.value == []
              || (|t.webRootPath.value| >= 2 && t.webRootPath.value[0] == '\\' && t.webRootPath.value[1] == '\\')
  {
    var path := t.webRootPath;
    assert path.Some? && |path.value| >= 2 ==> path.value[..2] == [path.value[0], path.value[1]];
    IsNullOrEmpty(path) || StartsWith(path.value, UncPrefix)
  }

  /** A share path is accepted. */
  lemma CanValidateUncPath(t: Target)
    requires t.webRootPath == Some("\\\\server\\share")
    ensures CanValidate(t)
  {
    assert t.webRootPath.value[..2] == UncPrefix;
  }

  /** A drive path and a path with one leading backslash are refused. */
  lemma CanValidateRefusesLocalPaths(t: Target)
    requires t.webRootPath == Some("C:\\inetpub\\wwwroot") || t.webRootPath == Some("\\inetpub")
    ensures !CanValidate(t)
  {
  }

  /** Sets the web root when the target has none, and always replaces the
      WebDAV credentials; nothing else in the target changes. */
  function FillTarget(t: Target, webRoot: Option<string>, options: WebDavOptions): (r: Target)
    ensures !IsNullOrEmpty(t.webRootPath) ==> r.webRootPath == t.webRootPath
    ensures IsNullOrEmpty(t.webRootPath) ==> r.webRootPath == webRoot
    ensures r.httpWebDavOptions == Some(options)
    ensures r.(webRootPath := t.webRootPath, httpWebDavOptions := t.httpWebDavOptions) == t
  {
    var path := if IsNullOrEmpty(t.webRootPath) then webRoot else t.webRootPath;
    t.(webRootPath := path, httpWebDavOptions := Some(options))
  }

  /** `WebDav.Default`, unattended: `configuredWebRoot` is the value of the
      required `WebRoot` option and `options` the credentials built from the
      command line. */
  function Default(t: Target, configuredWebRoot: Option<string>, options: WebDavOptions): (r: Target)
    ensures !IsNullOrEmpty(t.webRootPath) ==> r.webRootPath == t.webRootPath
    ensures IsNullOrEmpty(t.webRootPath) ==> r.webRootPath == configuredWebRoot
    ensures r.httpWebDavOptions == Some(options)
    ensures r.(webRootPath := t.webRootPath, httpWebDavOptions := t.httpWebDavOptions) == t
  {
    FillTarget(t, configuredWebRoot, options)
  }

  /** `WebDav.Aquire`, interactive: `enteredWebRoot` is the `WebRoot` option
      or, when that is absent, the site path the user typed; `options` the
      credentials built from options and input. */
  function Aquire(t: Target, enteredWebRoot: Option<string>, options: WebDavOptions): (r: Target)
    ensures !IsNullOrEmpty(t.webRootPath) ==> r.webRootPath == t.webRootPath
    ensures IsNullOrEmpty(t.webRootPath) ==> r.webRootPath == enteredWebRoot
    ensures r.httpWebDavOptions == Some(options)
    ensures r.(webRootPath := t.webRootPath, httpWebDavOptions := t.httpWebDavOptions) == t
  {
    FillTarget(t, enteredWebRoot, options)
  }

  /** Running `Default` again with the same configured web root leaves the
      web root as the first run set it; with the same credentials too, the
      whole target is unchanged. */
  lemma DefaultIdempotent(t: Target, configuredWebRoot: Option<string>, o1: WebDavOptions, o2: WebDavOptions)
    ensures Default(Default(t, configuredWebRoot, o1), configuredWebRoot, o2).webRootPath
            == Default(t, configuredWebRoot, o1).webRootPath
    ensures Default(Default(t, configuredWebRoot, o1), configuredWebRoot, o1)
            == Default(t, configuredWebRoot, o1)
  {
  }

  /** The files the WebDAV server lists under a path. */
  type Listing = string -> seq<string>

  /** `WebDav.IsEmpty`: the server lists no file under `path`. */
  function IsEmpty(listing: Listing, path: string): (b: bool)
    ensures b <==> forall f :: f !in listing(path)
  {
    var files := listing(path);
    assert |files| > 0 ==> files[0] in files;
    |files| == 0
  }
}
