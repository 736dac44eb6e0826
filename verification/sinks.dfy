/**
 * The handler classes a registry can build, as a closed table: the two
 * concrete Logger subclasses, chosen by the 'className' option.
 */
module Sinks {
  import opened Wrappers
  import opened Php
  import opened Environment
  import opened LoggerBase
  import opened ArrayHandler
  import opened FileHandler

  const ArrayLoggerClass: string := "Fyre\\Log\\Handlers\\ArrayLogger"
  const FileLoggerClass: string := "Fyre\\Log\\Handlers\\FileLogger"

  datatype Kind = ArrayKind | FileKind

  /**
   * The checks LogManager::build and Log::load make on 'className': a missing
   * key is an invalid class with an empty name, a value that is not a string
   * is refused by class_exists under strict types, and a string that names
   * neither handler is an invalid class with that name.
   */
  function ClassOf(options: Options): (r: Result<Kind>)
    ensures "className" !in options ==> r == Err(InvalidClass(""))
    ensures "className" in options && !options["className"].VStr? ==> r == Err(TypeError)
    ensures r == Ok(ArrayKind) <==> "className" in options && options["className"] == VStr(ArrayLoggerClass)
    ensures r == Ok(FileKind) <==> "className" in options && options["className"] == VStr(FileLoggerClass)
    ensures r.Err? && "className" in options && options["className"].VStr? ==>
      r == Err(InvalidClass(options["className"].s))
  {
    if "className" !in options then Err(InvalidClass(""))
    else
      match options["className"]
      case VStr(name) =>
        if name == ArrayLoggerClass then Ok(ArrayKind)
        else if name == FileLoggerClass then Ok(FileKind)
        else Err(InvalidClass(name))
      case _ => Err(TypeError)
  }

  /** A built handler. */
  datatype Sink = ArraySink(a: ArrayLogger) | FileSink(f: FileLogger)

  /** The mutable objects of a handler: only an ArrayLogger has state. */
  function Footprint(s: Sink): set<ArrayLogger> {
    if s.ArraySink? then {s.a} else {}
  }

  predicate SinkValid(s: Sink) {
    match s
    case ArraySink(a) => a.Valid()
    case FileSink(f) => f.Valid()
  }

  /** A handler as a value: its configuration, and its entries or its directory. */
  datatype SinkView =
    | ArrayView(config: Options, content: seq<string>)
    | FileView(config: Options, dir: string)

  predicate ViewValid(v: SinkView) {
    match v
    case ArrayView(c, _) => Normalised(c)
    case FileView(c, _) => FileConfig(c)
  }

  function ViewOf(s: Sink): (v: SinkView)
    requires SinkValid(s)
    reads Footprint(s)
    ensures ViewValid(v)
  {
    match s
    case ArraySink(a) => ArrayView(a.config, a.content)
    case FileSink(f) => FileView(f.config, f.path)
  }

  /** The handler a successful build yields, before it has handled anything. */
  function BuildView(options: Options, cli: bool): (r: Result<SinkView>)
    ensures r.Err? <==> ClassOf(options).Err?
    ensures r.Err? ==> r.error == ClassOf(options).error
    ensures r.Ok? ==> ViewValid(r.value)
    ensures r.Ok? && r.value.ArrayView? ==> r.value.content == []
  {
    match ClassOf(options)
    case Err(e) => Err(e)
    case Ok(ArrayKind) => Ok(ArrayView(Configured(BaseDefaults, options), []))
    case Ok(FileKind) =>
      var c := FileConfigured(options, cli);
      Ok(FileView(c, ToStr(c["path"])))
  }

  /** The options use() hands to build (LogManager) or load (Log): the stored ones, or [] for an unknown key. */
  function OptionsFor(config: map<string, Options>, key: string): Options {
    if key in config then config[key] else map[]
  }

  /** LogManager::build (and Log::load): check the class name, then construct the handler with the options. */
  method Build(options: Options, amb: Ambient) returns (r: Result<Sink>)
    ensures r.Err? ==> BuildView(options, amb.cli) == Err(r.error)
    ensures r.Ok? ==> SinkValid(r.value) && fresh(Footprint(r.value))
    ensures r.Ok? ==> BuildView(options, amb.cli) == Ok(ViewOf(r.value))
  {
    var kind := ClassOf(options);
    match kind
    case Err(e) =>
      r := Err(e);
    case Ok(ArrayKind) =>
      var a := new ArrayLogger(options);
      r := Ok(ArraySink(a));
    case Ok(FileKind) =>
      var f := new FileLogger(options, amb);
      r := Ok(FileSink(f));
  }
}
