/**
  The per-file state of the sorter (RuntimeData.cs): the reader over the file, the list the
  sorted lines are added to, line counters and the warn-once flags.
 */
module Runtime {
  import opened Wrappers

  /** The StreamReader of one file, as a cursor over its lines. */
  class LineReader {
    const lines: seq<string>
    var pos: nat

    constructor (lines: seq<string>)
      ensures this.lines == lines && pos == 0
    {
      this.lines := lines;
      pos := 0;
    }

    predicate EndOfStream()
      reads this
    {
      pos >= |lines|
    }

    /** The next line; every caller checks `EndOfStream` first. */
    method ReadLine() returns (line: string)
      requires !EndOfStream()
      modifies this`pos
      ensures line == lines[old(pos)] && pos == old(pos) + 1
    {
      line := lines[pos];
      pos := pos + 1;
    }
  }

  /** A `List<string>` that is only ever appended to. */
  class LineList {
    var items: seq<string>

    constructor ()
      ensures items == []
    {
      items := [];
    }

    method Add(item: string)
      modifies this
      ensures items == old(items) + [item]
    {
      items := items + [item];
    }

    method AddRange(more: seq<string>)
      modifies this
      ensures items == old(items) + more
    {
      items := items + more;
    }
  }

  /** The two warn-once flags: one shared by the invalid-format and invalid-element warnings,
      one for unrecognized elements. */
  datatype WarnFlags = WarnFlags(invalidFormatWarned: bool, unrecognizedElementWarned: bool)

  const NoneWarned := WarnFlags(false, false)

  class RuntimeData {
    var commentBlockFirstLine: string
    var commentBlockStartLineNumber: int
    var currentLineNumber: int
    const fileContents: LineList
    const inputFilePath: string
    var invalidFormatWarned: bool
    var nextLine: Option<string>
    const reader: LineReader
    var unrecognizedElementWarned: bool

    constructor (inputFilePath: string, reader: LineReader, fileContents: LineList)
      ensures this.reader == reader && this.inputFilePath == inputFilePath
      ensures this.fileContents == fileContents
      ensures commentBlockFirstLine == "" && commentBlockStartLineNumber == 0
      ensures currentLineNumber == 0 && nextLine == None
      ensures !invalidFormatWarned && !unrecognizedElementWarned
    {
      this.reader := reader;
      this.inputFilePath := inputFilePath;
      commentBlockFirstLine := "";
      commentBlockStartLineNumber := 0;
      currentLineNumber := 0;
      this.fileContents := fileContents;
      invalidFormatWarned := false;
      nextLine := None;
      unrecognizedElementWarned := false;
    }

    function Flags(): WarnFlags
      reads this
    {
      WarnFlags(invalidFormatWarned, unrecognizedElementWarned)
    }
  }
}
