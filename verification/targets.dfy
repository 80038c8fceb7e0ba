/** The part of a `Target` (the host binding a certificate is requested for)
    that the renewal and WebDAV logic reads or writes. */
module Targets {
  import opened Wrappers

  /** Connection settings handed to the WebDAV client; built from the
      command-line options or interactive input by the caller. */
  datatype WebDavOptions = WebDavOptions(userName: Option<string>, password: Option<string>)

  datatype Target = Target(
    host: Option<string>,
    alternativeNames: Option<seq<string>>,
    hostIsDns: Option<bool>,
    pluginName: Option<string>,
    targetPluginName: Option<string>,
    webRootPath: Option<string>,
    httpWebDavOptions: Option<WebDavOptions>)
}
