/** scrapers/utils/utils.js: the current date in ISO form, date stamping of a
    record, and appending a CSV text plus a newline to a file.

    The wall clock is an input: `now` is the text `new Date().toISOString()`
    would give. The file system is an in-memory `FileStore`: a map from path to
    content, the log lines written so far, and the set of paths whose append
    the operating system refuses (a missing parent directory, say). */
module Utils {
  import opened Text

  const DateKey := "date"
  const AppendedPrefix := "The data was appended to CSV file: "
  const AppendFailedMessage := "Couldn't append the data"

  /** `getCurrDate`: the ISO timestamp up to (not including) its first 'T'. */
  function CurrDate(now: string): (d: string)
    ensures |d| <= |now| && d == now[..|d|]
    ensures 'T' !in d
    ensures |d| < |now| ==> now[|d|] == 'T'
  {
    SplitHead(now, 'T');
    Split(now, 'T')[0]
  }

  /** The shape `Date.prototype.toISOString` produces for years 0 to 9999:
      `YYYY-MM-DDTHH:mm:ss.sssZ`. */
  predicate IsIsoTimestamp(now: string) {
    && |now| == 24
    && (forall i :: 0 <= i < 10 && i != 4 && i != 7 ==> '0' <= now[i] <= '9')
    && now[4] == '-' && now[7] == '-' && now[10] == 'T'
  }

  /** For such a timestamp the date is its first ten characters, `YYYY-MM-DD`. */
  lemma CurrDateOfIsoTimestamp(now: string)
    requires IsIsoTimestamp(now)
    ensures CurrDate(now) == now[..10]
  {
    assert now[10] == 'T';
  }

  /** A JavaScript object whose properties the scrapers update in place. A
      property that is absent from `fields` reads as `undefined`. */
  class JsObject {
    var fields: map<string, string>

    constructor (fields: map<string, string>)
      ensures this.fields == fields
    {
      this.fields := fields;
    }
  }

  /** The property maps of several objects, in order. */
  function FieldsOf(objects: seq<JsObject>): (fs: seq<map<string, string>>)
    reads objects
    ensures |fs| == |objects|
    ensures forall i :: 0 <= i < |objects| ==> fs[i] == objects[i].fields
  {
    seq(|objects|, i requires 0 <= i < |objects| reads objects => objects[i].fields)
  }

  /** `addDate`: sets `date` on the same object and returns that object. */
  method AddDate(record: JsObject, now: string) returns (same: JsObject)
    modifies record
    ensures same == record
    ensures record.fields == old(record.fields)[DateKey := CurrDate(now)]
  {
    record.fields := record.fields[DateKey := CurrDate(now)];
    same := record;
  }

  /** Stamping changes `date` and nothing else. */
  lemma StampKeepsOtherFields(fields: map<string, string>, now: string, key: string)
    requires key != DateKey
    ensures key in fields[DateKey := CurrDate(now)] <==> key in fields
    ensures key in fields ==> fields[DateKey := CurrDate(now)][key] == fields[key]
  {
  }

  datatype LogLine = Info(message: string) | Error(message: string)

  /** One `appendToCsv(text, path)` call. */
  datatype Append = Append(path: string, text: string)

  /** The content of a file; a file not yet created reads as empty, since
      `fs.appendFile` creates it. */
  function Content(files: map<string, string>, path: string): string {
    if path in files then files[path] else ""
  }

  /** The file map after one append: unchanged if the path is refused,
      otherwise the text and one newline added at the end of that file. */
  function Applied(files: map<string, string>, unwritable: set<string>, a: Append): (r: map<string, string>)
    ensures a.path in unwritable ==> r == files
    ensures a.path !in unwritable ==> r.Keys == files.Keys + {a.path}
    ensures a.path !in unwritable ==> r[a.path] == Content(files, a.path) + a.text + "\n"
    ensures forall p :: p != a.path ==> Content(r, p) == Content(files, p)
  {
    if a.path in unwritable then files
    else files[a.path := Content(files, a.path) + a.text + "\n"]
  }

  /** The file map after a sequence of appends, in order. */
  function AppliedAll(files: map<string, string>, unwritable: set<string>, appends: seq<Append>): map<string, string>
    decreases |appends|
  {
    if |appends| == 0 then files
    else Applied(AppliedAll(files, unwritable, appends[..|appends| - 1]), unwritable, appends[|appends| - 1])
  }

  /** The log line one append writes. */
  function LogOf(unwritable: set<string>, a: Append): LogLine {
    if a.path in unwritable then Error(AppendFailedMessage)
    else Info(AppendedPrefix + LastSegment(a.path))
  }

  function LogsOf(unwritable: set<string>, appends: seq<Append>): (r: seq<LogLine>)
    ensures |r| == |appends|
  {
    seq(|appends|, i requires 0 <= i < |appends| => LogOf(unwritable, appends[i]))
  }

  /** Appending keeps what the file held and adds exactly the text and one
      newline at its end. */
  lemma {:induction false} AppendKeepsExistingContent(files: map<string, string>, unwritable: set<string>, a: Append)
    requires a.path !in unwritable
    ensures |Content(Applied(files, unwritable, a), a.path)| == |Content(files, a.path)| + |a.text| + 1
    ensures Content(Applied(files, unwritable, a), a.path)[..|Content(files, a.path)|] == Content(files, a.path)
    ensures Content(Applied(files, unwritable, a), a.path)[|Content(files, a.path)|..] == a.text + "\n"
  {
    var old_ := Content(files, a.path);
    var new_ := Content(Applied(files, unwritable, a), a.path);
    assert new_ == old_ + (a.text + "\n");
  }

  /** There is no deduplication: appending the same text twice leaves two
      identical trailing lines. */
  lemma {:induction false} AppendTwiceDuplicates(files: map<string, string>, unwritable: set<string>, a: Append)
    requires a.path !in unwritable
    ensures Content(AppliedAll(files, unwritable, [a, a]), a.path)
         == Content(files, a.path) + a.text + "\n" + a.text + "\n"
  {
    assert [a, a][..1] == [a];
    assert [a][..0] == [];
    assert AppliedAll(files, unwritable, []) == files;
    var once := AppliedAll(files, unwritable, [a]);
    assert once == Applied(files, unwritable, a);
    assert AppliedAll(files, unwritable, [a, a]) == Applied(once, unwritable, a);
  }

  /** Appends to one path leave every other file as it was. */
  lemma {:induction false} AppliedAllOtherPaths(files: map<string, string>, unwritable: set<string>, appends: seq<Append>, p: string)
    requires forall i :: 0 <= i < |appends| ==> appends[i].path != p
    ensures Content(AppliedAll(files, unwritable, appends), p) == Content(files, p)
    decreases |appends|
  {
    if |appends| > 0 {
      AppliedAllOtherPaths(files, unwritable, appends[..|appends| - 1], p);
    }
  }

  lemma AppliedAllConcat(files: map<string, string>, unwritable: set<string>, xs: seq<Append>, ys: seq<Append>)
    ensures AppliedAll(files, unwritable, xs + ys) == AppliedAll(AppliedAll(files, unwritable, xs), unwritable, ys)
    decreases |ys|
  {
    if |ys| == 0 {
      assert xs + ys == xs;
    } else {
      assert (xs + ys)[..|xs + ys| - 1] == xs + ys[..|ys| - 1];
      AppliedAllConcat(files, unwritable, xs, ys[..|ys| - 1]);
    }
  }

  /** A leading append happens first, then the rest in order. */
  lemma AppliedAllCons(files: map<string, string>, unwritable: set<string>, a: Append, ys: seq<Append>)
    ensures AppliedAll(files, unwritable, [a] + ys) == AppliedAll(Applied(files, unwritable, a), unwritable, ys)
    ensures LogsOf(unwritable, [a] + ys) == [LogOf(unwritable, a)] + LogsOf(unwritable, ys)
  {
    assert [a][..0] == [];
    assert AppliedAll(files, unwritable, [a]) == Applied(files, unwritable, a);
    AppliedAllConcat(files, unwritable, [a], ys);
    LogsOfConcat(unwritable, [a], ys);
  }

  /** One more append at the end is applied last and logged last. */
  lemma AppliedAllSnoc(files: map<string, string>, unwritable: set<string>, xs: seq<Append>, x: Append)
    ensures AppliedAll(files, unwritable, xs + [x]) == Applied(AppliedAll(files, unwritable, xs), unwritable, x)
    ensures LogsOf(unwritable, xs + [x]) == LogsOf(unwritable, xs) + [LogOf(unwritable, x)]
  {
    assert (xs + [x])[..|xs|] == xs;
    LogsOfConcat(unwritable, xs, [x]);
  }

  /** Two appends are applied and logged one after the other. */
  lemma AppliedAllPair(files: map<string, string>, unwritable: set<string>, a: Append, b: Append)
    ensures AppliedAll(files, unwritable, [a, b]) == Applied(Applied(files, unwritable, a), unwritable, b)
    ensures LogsOf(unwritable, [a, b]) == [LogOf(unwritable, a), LogOf(unwritable, b)]
  {
    assert [a] + [b] == [a, b];
    assert [a][..0] == [];
    AppliedAllSnoc(files, unwritable, [a], b);
  }

  /** Extending a log in two steps is extending it once by both parts. */
  lemma LogExtended(log: seq<LogLine>, first: seq<LogLine>, second: seq<LogLine>)
    ensures log + first + second == log + (first + second)
  {
  }

  /** The log lines of a sequence of appends are those of its parts, in order. */
  lemma LogsOfConcat(unwritable: set<string>, xs: seq<Append>, ys: seq<Append>)
    ensures LogsOf(unwritable, xs + ys) == LogsOf(unwritable, xs) + LogsOf(unwritable, ys)
  {
    var l := LogsOf(unwritable, xs + ys);
    var r := LogsOf(unwritable, xs) + LogsOf(unwritable, ys);
    forall i | 0 <= i < |l|
      ensures l[i] == r[i]
    {
      if i < |xs| {
        assert (xs + ys)[i] == xs[i];
      } else {
        assert (xs + ys)[i] == ys[i - |xs|];
      }
    }
  }

  /** The files written so far and the log, as `fs.appendFile` and the logger
      leave them. */
  class FileStore {
    var files: map<string, string>
    var log: seq<LogLine>
    const unwritable: set<string>

    constructor (files: map<string, string>, unwritable: set<string>)
      ensures this.files == files && this.log == [] && this.unwritable == unwritable
    {
      this.files := files;
      this.log := [];
      this.unwritable := unwritable;
    }

    /** `appendToCsv(csv, filepath)`: on success the file gets `csv` and one
        newline at its end and the log names the file by its last path
        segment; on failure the file is untouched, an error line is logged
        and `ok` is false (the source rethrows inside the write callback). */
    method AppendToCsv(csv: string, filepath: string) returns (ok: bool)
      modifies this
      ensures ok <==> filepath !in unwritable
      ensures files == Applied(old(files), unwritable, Append(filepath, csv))
      ensures log == old(log) + [LogOf(unwritable, Append(filepath, csv))]
    {
      if filepath in unwritable {
        log := log + [Error(AppendFailedMessage)];
        return false;
      }
      files := files[filepath := Content(files, filepath) + csv + "\n"];
      var csvFilename := LastSegment(filepath);
      log := log + [Info(AppendedPrefix + csvFilename)];
      ok := true;
    }
  }
}
