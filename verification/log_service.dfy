/** The passenger log: a `;`-delimited text table with a header line naming
    the passenger attributes and one entry per registered passenger.  The file
    is modelled as the sequence of strings written to it, each ending in a
    newline; a newline inside a field is not escaped, so one entry may span
    several physical lines of the file. */
module LogService {
  import opened Outcomes
  import opened Models

  /** The field delimiter of the table. */
  const Delimiter: char := ';'

  /** The line terminator. */
  const Newline: char := '\n'

  /** The fields of `parts` separated by the delimiter (`";".join(parts)`). */
  function Join(parts: seq<string>): string
    decreases |parts|
  {
    if |parts| == 0 then ""
    else if |parts| == 1 then parts[0]
    else parts[0] + [Delimiter] + Join(parts[1..])
  }

  /** The fields of `s`, cut at every delimiter; the inverse of `Join` on
      fields that contain no delimiter. */
  function Split(s: string): (r: seq<string>)
    ensures |r| >= 1
    decreases |s|
  {
    if |s| == 0 then [""]
    else
      var rest := Split(s[1..]);
      if s[0] == Delimiter then [""] + rest
      else [[s[0]] + rest[0]] + rest[1..]
  }

  /** One line of the table: the joined fields and a newline. */
  function Line(parts: seq<string>): string {
    Join(parts) + [Newline]
  }

  /** The header line, naming the passenger attributes in declaration order. */
  function Header(): string {
    Line(PassengerFieldNames)
  }

  /** The line written for a passenger with this name and surname. */
  function Entry(name: string, surname: string): string {
    Line([name, surname])
  }

  /** A line without its final newline. */
  function Body(line: string): string
    requires |line| > 0
  {
    line[..|line| - 1]
  }

  /** A string with no delimiter splits into itself alone. */
  lemma {:induction false} SplitWithoutDelimiter(a: string)
    requires Delimiter !in a
    ensures Split(a) == [a]
    decreases |a|
  {
    if |a| > 0 {
      assert Delimiter !in a[1..];
      SplitWithoutDelimiter(a[1..]);
      assert [a[0]] + a[1..] == a;
    }
  }

  /** Splitting a delimiter-free field followed by a delimiter peels off that
      field. */
  lemma {:induction false} SplitAfterField(a: string, b: string)
    requires Delimiter !in a
    ensures Split(a + [Delimiter] + b) == [a] + Split(b)
    decreases |a|
  {
    if |a| == 0 {
      assert a + [Delimiter] + b == [Delimiter] + b;
      assert ([Delimiter] + b)[1..] == b;
    } else {
      var s := a + [Delimiter] + b;
      assert s[1..] == a[1..] + [Delimiter] + b;
      assert Delimiter !in a[1..];
      SplitAfterField(a[1..], b);
      assert [a[0]] + a[1..] == a;
    }
  }

  /** Join and Split are inverse on one or more fields that contain no
      delimiter. */
  lemma {:induction false} SplitJoin(parts: seq<string>)
    requires |parts| >= 1
    requires forall i | 0 <= i < |parts| :: Delimiter !in parts[i]
    ensures Split(Join(parts)) == parts
    decreases |parts|
  {
    if |parts| == 1 {
      SplitWithoutDelimiter(parts[0]);
    } else {
      SplitAfterField(parts[0], Join(parts[1..]));
      SplitJoin(parts[1..]);
      assert [parts[0]] + parts[1..] == parts;
    }
  }

  /** The header is the line `name;surname`, and splitting it gives back the
      passenger attribute names. */
  lemma HeaderLayout()
    ensures Header() == "name;surname\n"
    ensures Split(Body(Header())) == PassengerFieldNames
  {
    assert Body(Header()) == Join(PassengerFieldNames);
    SplitJoin(PassengerFieldNames);
  }

  /** An entry is `name;surname` and a newline, laid out like the header: when
      neither field contains the delimiter, splitting the entry gives back the
      passenger's attribute values in header order. */
  lemma EntryLayout(name: string, surname: string)
    ensures Entry(name, surname) == name + ";" + surname + "\n"
    ensures Delimiter !in name && Delimiter !in surname ==>
              Split(Body(Entry(name, surname))) == PassengerFields(Passenger(name, surname))
  {
    assert Body(Entry(name, surname)) == Join([name, surname]);
    if Delimiter !in name && Delimiter !in surname {
      SplitJoin([name, surname]);
    }
  }

  /** Fields are not escaped: a delimiter inside a name makes two different
      passengers produce the same entry, and a newline inside a name makes
      one entry read as two lines, the first of them without any delimiter. */
  lemma EntriesAreAmbiguous()
    ensures Entry("a;b", "c") == Entry("a", "b;c")
    ensures Passenger("a;b", "c") != Passenger("a", "b;c")
    ensures Entry("a\nb", "c") == "a" + [Newline] + "b;c" + [Newline]
    ensures Newline in Body(Entry("a\nb", "c"))
  {
  }

  /** The output directory derived from the configured path: its first
      character is cut off and a `/` is added when the path does not already
      end in one.  An empty path fails with `IndexError`, as indexing its last
      character does. */
  function LogDir(outputLogPath: string): (r: Result<string>)
    ensures r.Err? <==> |outputLogPath| == 0
    ensures r.Err? ==> r.error == IndexError
    ensures r.Ok? ==> |outputLogPath| - 1 <= |r.value| <= |outputLogPath|
    ensures r.Ok? ==> r.value[..|outputLogPath| - 1] == outputLogPath[1..]
    ensures r.Ok? ==> (|r.value| == |outputLogPath| <==> outputLogPath[|outputLogPath| - 1] != '/')
    ensures r.Ok? ==> (outputLogPath != "/" <==> |r.value| > 0 && r.value[|r.value| - 1] == '/')
  {
    if |outputLogPath| == 0 then Err(IndexError)
    else
      Ok(outputLogPath[1..] + (if outputLogPath[|outputLogPath| - 1] != '/' then "/" else ""))
  }

  /** A directory that is empty or already ends in `/` comes back unchanged
      when derived from `/` followed by it. */
  lemma LogDirOfNormalised(d: string)
    requires |d| == 0 || d[|d| - 1] == '/'
    ensures LogDir("/" + d) == Ok(d)
  {
    var p := "/" + d;
    assert p[1..] == d;
    assert p[|p| - 1] == '/';
    assert d + "" == d;
  }

  /** Deriving the directory again from `/` followed by a derived directory
      changes nothing. */
  lemma LogDirIsNormalised(outputLogPath: string)
    requires |outputLogPath| > 0
    ensures LogDir("/" + LogDir(outputLogPath).value) == LogDir(outputLogPath)
  {
    LogDirOfNormalised(LogDir(outputLogPath).value);
  }

  /** The log service state: the file name, the derived directory, the file
      path, and the strings written to the file so far, in order. */
  datatype Log = Log(fileName: string, outputLogPath: string, logFile: string, lines: seq<string>)

  /** Sets up the log: derives the directory and the file path, and truncates
      the file to the header line alone. */
  function NewLog(fileName: string, outputLogPath: string): (r: Result<Log>)
    ensures r.Err? <==> |outputLogPath| == 0
    ensures r.Err? ==> r.error == IndexError
    ensures r.Ok? ==>
      && r.value.fileName == fileName
      && r.value.outputLogPath == LogDir(outputLogPath).value
      && r.value.logFile == LogDir(outputLogPath).value + fileName
      && r.value.lines == [Header()]
  {
    match LogDir(outputLogPath)
    case Err(e) => Err(e)
    case Ok(dir) => Ok(Log(fileName, dir, dir + fileName, [Header()]))
  }

  /** Appends one entry for the passenger and changes nothing else. */
  function WriteEntry(log: Log, name: string, surname: string): (r: Log)
    ensures |r.lines| == |log.lines| + 1
    ensures r.lines[..|log.lines|] == log.lines
    ensures r.lines[|log.lines|] == Entry(name, surname)
    ensures r.(lines := log.lines) == log
  {
    log.(lines := log.lines + [Entry(name, surname)])
  }

  /** The path of the log file. */
  function GetLogFilePath(log: Log): string {
    log.logFile
  }

  /** After construction the log file path is the derived directory followed
      by the file name; for a configured path that ends with `/` it is that
      path followed by the file name, without its first character.  Writing
      entries never moves it. */
  lemma LogFilePathAfterConstruction(fileName: string, outputLogPath: string,
                                     name: string, surname: string)
    requires |outputLogPath| > 0
    ensures NewLog(fileName, outputLogPath).Ok?
    ensures GetLogFilePath(NewLog(fileName, outputLogPath).value)
              == LogDir(outputLogPath).value + fileName
    ensures outputLogPath[|outputLogPath| - 1] == '/' ==>
              GetLogFilePath(NewLog(fileName, outputLogPath).value)
                == (outputLogPath + fileName)[1..]
    ensures GetLogFilePath(WriteEntry(NewLog(fileName, outputLogPath).value, name, surname))
              == GetLogFilePath(NewLog(fileName, outputLogPath).value)
  {
  }

  /** With the usual static URL `/static/`, the default log lands at
      `static/log/passengers.csv`. */
  lemma DefaultLogFilePath()
    ensures NewLog("passengers.csv", "/static/" + "log/").Ok?
    ensures GetLogFilePath(NewLog("passengers.csv", "/static/" + "log/").value)
              == "static/log/passengers.csv"
  {
  }
}
