/** `makeConfig` (src/config.ts): set up the logger, check that the markdown
    directory and the build mode are given, and default the public URL. */
module Config {
  import Js

  /** `MarkdownDBMode`. */
  datatype Mode = Static | Runtime

  /** The logger's levels. */
  datatype Level = Info | Warning | Failure

  /** The configuration as the caller passes it: every field may be missing. */
  datatype ConfigProps = ConfigProps(
    markdownDir: Js.Option<string>,
    mode: Js.Option<Mode>,
    publicURL: Js.Option<string>,
    logLevel: Js.Option<Level>,
    logDir: Js.Option<string>)

  /** The configuration `makeConfig` returns: three fields, all present. */
  datatype MarkdownDBConfig = MarkdownDBConfig(markdownDir: string, mode: Mode, publicURL: string)

  /** The logging side effects, in the order they happen. */
  datatype Effect =
    | SetLogger(level: Level, dir: Js.Option<string>)
    | Log(record: string, level: Level)

  const NoDirMessage: string := "Markdown directory is not specified"
  const NoModeMessage: string := "Build mode is note specified"
  const DefaultURLMessage: string := "publicURL is not specified, using / as default"

  /** `makeConfig` as written: a straight line of statements, the logger set
      up before any check, `publicURL` reassigned by the defaulting closure. */
  method MakeConfig(props: ConfigProps) returns (r: Js.Result<MarkdownDBConfig>, effects: seq<Effect>)
    ensures |effects| >= 1 && effects[0] == SetLogger(props.logLevel.GetOr(Info), props.logDir)
    ensures props.markdownDir.None? ==> r == Js.Throw(Js.Error(NoDirMessage))
    ensures props.markdownDir.Some? && props.mode.None? ==> r == Js.Throw(Js.Error(NoModeMessage))
    ensures r.Ok? <==> props.markdownDir.Some? && props.mode.Some?
    ensures r.Ok? ==> r.value.markdownDir == props.markdownDir.value && r.value.mode == props.mode.value
    ensures r.Ok? ==> r.value.publicURL == props.publicURL.GetOr("/")
    ensures Log(DefaultURLMessage, Warning) in effects <==> r.Ok? && props.publicURL.None?
    ensures effects == [SetLogger(props.logLevel.GetOr(Info), props.logDir)]
                       + (if r.Ok? && props.publicURL.None? then [Log(DefaultURLMessage, Warning)] else [])
  {
    effects := [];
    if props.logLevel.None? {
      effects := effects + [SetLogger(Info, props.logDir)];
    } else {
      effects := effects + [SetLogger(props.logLevel.value, props.logDir)];
    }

    if props.markdownDir.None? {
      r := Js.Throw(Js.Error(NoDirMessage));
      return;
    }

    if props.mode.None? {
      r := Js.Throw(Js.Error(NoModeMessage));
      return;
    }

    var publicURL := props.publicURL;
    if publicURL.None? {
      effects := effects + [Log(DefaultURLMessage, Warning)];
      publicURL := Js.Some("/");
    }

    r := Js.Ok(MarkdownDBConfig(props.markdownDir.value, props.mode.value, publicURL.value));
  }
}
