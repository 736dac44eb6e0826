/** ArrayLogger: a handler that keeps its formatted entries in memory. */
module ArrayHandler {
  import opened Php
  import opened Environment
  import opened Interpolation
  import opened LoggerBase

  /** The date a handler stamps on an entry: date() with its configured format. */
  function DateOf(config: Options, amb: Ambient): string
    requires "dateFormat" in config
  {
    amb.date(ToStr(config["dateFormat"]))
  }

  /** The entry ArrayLogger::handle appends: the interpolated message, formatted with the date. */
  function Entry(config: Options, level: string, message: string, data: Options, amb: Ambient): (r: string)
    requires "dateFormat" in config
    ensures |r| == |DateOf(config, amb)| + |level| + 4 + |Interpolated(message, data, amb)|
  {
    Format(level, Interpolated(message, data, amb), true, DateOf(config, amb))
  }

  /** An entry starts with the date and a space, and ends with the interpolated message. */
  lemma EntryLayout(config: Options, level: string, message: string, data: Options, amb: Ambient)
    requires "dateFormat" in config
    ensures var r, date, text := Entry(config, level, message, data, amb), DateOf(config, amb), Interpolated(message, data, amb);
      && |r| > |date| + |text|
      && r[|r| - |text|..] == text
      && r[..|date| + 1] == date + " "
  {
    FormatLayout(level, Interpolated(message, data, amb), true, DateOf(config, amb));
  }

  class ArrayLogger {
    const config: Options
    var content: seq<string>

    predicate Valid() {
      Normalised(config)
    }

    /** ArrayLogger inherits Logger::$defaults as its own defaults. */
    constructor(options: Options)
      ensures Valid() && config == Configured(BaseDefaults, options)
      ensures content == []
    {
      var configured := Construct(BaseDefaults, options);
      config := configured;
      content := [];
    }

    /** Interpolate the message with the data, format it, and append it. */
    method Handle(level: string, message: string, data: Options, amb: Ambient)
      requires Valid()
      modifies this
      ensures content == old(content) + [Entry(config, level, message, data, amb)]
    {
      var text := Interpolate(message, data, amb);
      var line := Format(level, text, true, amb.date(ToStr(config["dateFormat"])));
      content := content + [line];
    }

    /** The entries, oldest first. */
    function Read(): (r: seq<string>)
      reads this
      ensures |r| == |content| && forall i :: 0 <= i < |r| ==> r[i] == content[i]
    {
      content
    }

    method Clear()
      modifies this
      ensures content == []
    {
      content := [];
    }
  }

  /** Two handles on a fresh logger: the first entry is read back before the second. */
  method HandleTwice(options: Options, level: string, m1: string, m2: string, amb: Ambient)
    returns (entries: seq<string>)
    ensures entries == [Entry(Configured(BaseDefaults, options), level, m1, map[], amb),
                        Entry(Configured(BaseDefaults, options), level, m2, map[], amb)]
  {
    var logger := new ArrayLogger(options);
    logger.Handle(level, m1, map[], amb);
    logger.Handle(level, m2, map[], amb);
    entries := logger.Read();
  }

  /** Reading after clear gives nothing, whatever was handled before. */
  method ClearEmpties(options: Options, level: string, message: string, amb: Ambient)
    returns (entries: seq<string>)
    ensures entries == []
  {
    var logger := new ArrayLogger(options);
    logger.Handle(level, message, map[], amb);
    logger.Clear();
    entries := logger.Read();
  }
}
