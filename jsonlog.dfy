/**
 * internal/jsonlog: a levelled logger that writes one JSON object per line.
 * The output writer is the sequence of entries written to it, one per line;
 * how an entry is spelled in JSON is not part of this model.
 */
module JsonLog {
  import opened Wrappers

  /** Go's `type Level int8`. */
  newtype Level = x: int | -128 <= x < 128
  {
    /** `Level.String()`: the name of a named level, "" for every other value. */
    function String(): (s: string)
      ensures this == LevelInfo ==> s == "INFO"
      ensures this == LevelError ==> s == "ERROR"
      ensures this == LevelFatal ==> s == "FATAL"
      ensures s != "" <==> LevelInfo <= this <= LevelFatal
      ensures s in ["INFO", "ERROR", "FATAL", ""]
    {
      if this == LevelInfo then "INFO"
      else if this == LevelError then "ERROR"
      else if this == LevelFatal then "FATAL"
      else ""
    }
  }

  const LevelInfo: Level := 0
  const LevelError: Level := 1
  const LevelFatal: Level := 2
  const LevelOff: Level := 3

  /** The three named levels have distinct names, so a line's level can be read back. */
  lemma NamesIdentifyLevels(a: Level, b: Level)
    requires a.String() != "" && a.String() == b.String()
    ensures a == b
  {
  }

  /** One log line: level name, time stamp, message, properties and, for serious levels, a stack trace. */
  datatype Entry = Entry(level: string, time: string, message: string,
                         properties: map<string, string>, trace: Option<string>)

  /**
   * The entry `print` builds. The time stamp (RFC 3339, UTC) and the stack
   * trace are inputs, since they come from the clock and the runtime.
   */
  function MakeEntry(level: Level, message: string, properties: map<string, string>,
                     time: string, stack: string): (e: Entry)
    ensures e.level == level.String() && e.message == message && e.time == time
    ensures e.properties == properties
    ensures e.trace.Some? <==> level >= LevelError
    ensures e.trace.Some? ==> e.trace.value == stack
  {
    Entry(level.String(), time, message, properties, if level >= LevelError then Some(stack) else None)
  }

  /** What `print` appends to the output: one line, or nothing for a level below the minimum. */
  function Emitted(minLevel: Level, level: Level, entry: Entry): (lines: seq<Entry>)
    ensures |lines| <= 1
    ensures lines == [] <==> level < minLevel
    ensures lines != [] ==> lines[0] == entry
  {
    if level < minLevel then [] else [entry]
  }

  /** A logger whose minimum level is Off prints nothing at any named level. */
  lemma OffIsSilent(level: Level, entry: Entry)
    requires level.String() != ""
    ensures Emitted(LevelOff, level, entry) == []
  {
  }

  class Logger {
    /** The lines written to the output so far, oldest first. */
    var out: seq<Entry>
    const minLevel: Level

    /** `New(out, minLevel)`, on an output with nothing written yet. */
    constructor (minLevel: Level)
      ensures this.minLevel == minLevel && out == []
    {
      this.minLevel := minLevel;
      out := [];
    }

    /** `print(level, message, properties)`; `emitted` is false where the source returns (0, nil). */
    method PrintEntry(level: Level, message: string, properties: map<string, string>,
                      time: string, stack: string) returns (emitted: bool)
      modifies this
      ensures emitted <==> level >= minLevel
      ensures out == old(out) + Emitted(minLevel, level, MakeEntry(level, message, properties, time, stack))
    {
      if level < minLevel {
        return false;
      }
      var entry := Entry(level.String(), time, message, properties, None);
      if level >= LevelError {
        entry := entry.(trace := Some(stack));
      }
      out := out + [entry];
      return true;
    }

    /** `PrintInfo(message, properties)`. */
    method PrintInfo(message: string, properties: map<string, string>, time: string, stack: string)
      modifies this
      ensures out == old(out) + Emitted(minLevel, LevelInfo, MakeEntry(LevelInfo, message, properties, time, stack))
      ensures minLevel == LevelOff ==> out == old(out)
    {
      var _ := PrintEntry(LevelInfo, message, properties, time, stack);
    }

    /** `PrintError(err, properties)`, with the error's text as the message. */
    method PrintError(err: string, properties: map<string, string>, time: string, stack: string)
      modifies this
      ensures out == old(out) + Emitted(minLevel, LevelError, MakeEntry(LevelError, err, properties, time, stack))
      ensures minLevel == LevelOff ==> out == old(out)
    {
      var _ := PrintEntry(LevelError, err, properties, time, stack);
    }

    /** `PrintFatal(err, properties)` up to the process exit that follows it. */
    method PrintFatal(err: string, properties: map<string, string>, time: string, stack: string)
      modifies this
      ensures out == old(out) + Emitted(minLevel, LevelFatal, MakeEntry(LevelFatal, err, properties, time, stack))
      ensures minLevel == LevelOff ==> out == old(out)
    {
      var _ := PrintEntry(LevelFatal, err, properties, time, stack);
    }

    /** `Write(message)`: the logger as an `io.Writer` logs each write at Error level without properties. */
    method Write(message: string, time: string, stack: string) returns (emitted: bool)
      modifies this
      ensures emitted <==> LevelError >= minLevel
      ensures out == old(out) + Emitted(minLevel, LevelError, MakeEntry(LevelError, message, map[], time, stack))
      ensures minLevel == LevelOff ==> out == old(out)
    {
      emitted := PrintEntry(LevelError, message, map[], time, stack);
    }
  }
}
