/**
 * The watermark store of app.py: one optional timestamp, persisted in a
 * single file. The file either does not exist, or holds text that is blank
 * once stripped, or holds the ISO-8601 rendering of one timestamp. Timestamps
 * are whole seconds (the parsed time has whole-second resolution, and the
 * dispatcher uses its first six fields, year to second), so a stored stamp
 * is an `int`.
 */
module WatermarkStore {

  import opened Options

  /** What an existing watermark file holds, after `strip()`. */
  datatype FileText =
    | Blank              // empty, or only white space
    | Stamp(seconds: int) // the ISO-8601 text of one timestamp

  /** The watermark that a file state reads as. */
  function Decode(file: Option<FileText>): (w: Option<int>)
    ensures w.Some? <==> file.Some? && file.value.Stamp?
    ensures w.Some? ==> file == Some(Stamp(w.value))
  {
    match file
    case None => None
    case Some(Blank) => None
    case Some(Stamp(t)) => Some(t)
  }

  /** The file that persists the watermark; `file == None` when it does not exist. */
  class Store {
    var file: Option<FileText>

    /** The watermark as the next `Get` reads it. */
    function Current(): Option<int>
      reads this
    {
      Decode(file)
    }

    /** Opens the store over a file in whatever state a previous process left it. */
    constructor (initial: Option<FileText>)
      ensures file == initial
    {
      file := initial;
    }

    /** `get_last_processed_time`: absent when there is no file or when it is blank. */
    method Get() returns (w: Option<int>)
      ensures w == Current()
      ensures file.None? ==> w.None?
      ensures file == Some(Blank) ==> w.None?
    {
      if file.Some? {
        var text := file.value;
        if text.Stamp? {
          return Some(text.seconds);
        }
      }
      return None;
    }

    /** `set_last_processed_time`: overwrites the file with the new stamp. */
    method Set(t: int)
      modifies this
      ensures file == Some(Stamp(t))
      ensures Current() == Some(t)
    {
      file := Some(Stamp(t));
    }

    /** `reset_last_processed_time`: removes the file if it exists, and does nothing otherwise. */
    method Reset()
      modifies this
      ensures file == None
      ensures Current() == None
      ensures old(file) == None ==> unchanged(this)
    {
      if file.Some? {
        file := None;
      }
    }
  }
}
