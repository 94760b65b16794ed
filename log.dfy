/**
 * The /log command of handlers/log.py: it reads the command log, keeps its last 30 lines,
 * cuts the joined text down to its last 4000 characters and sends it in an HTML block.
 * The log file is a parameter: absent, raising on read, or the lines `readlines()` returns,
 * each with its line terminator.
 */
module Log {
  import opened Wrappers
  import opened Text
  import opened Lines

  /** NUM_LINES. */
  const NumLines: nat := 30
  /** The content limit, kept below Telegram's 4096-character message limit. */
  const MaxContent: nat := 4000

  const MissingNotice := "Log file is currently empty or does not exist."
  const EmptyNotice := "Log file is empty."

  datatype LogFile = Missing | Unreadable(error: string) | Present(lines: seq<string>)

  /** One `message.answer` attempt: its text and whether it is sent with HTML parse mode. */
  datatype Answer = Answer(text: string, html: bool)

  function Min(a: nat, b: nat): nat {
    if a <= b then a else b
  }

  /** `b` ends with `a`. */
  predicate IsSuffix<T(==)>(a: seq<T>, b: seq<T>) {
    |a| <= |b| && b[|b| - |a|..] == a
  }

  lemma SuffixTransitive<T>(a: seq<T>, b: seq<T>, c: seq<T>)
    requires IsSuffix(a, b) && IsSuffix(b, c)
    ensures IsSuffix(a, c)
  {
    assert c[|c| - |a|..] == c[|c| - |b|..][|b| - |a|..];
  }

  /** Where the Python slice `s[i:]` starts in a sequence of length `len`: a negative index
      counts from the end and is clamped at 0, a large one is clamped at `len`. */
  function SliceStart(i: int, len: nat): (start: nat)
    ensures start <= len
    ensures i < 0 && -i <= len ==> start == len + i
    ensures 0 <= i <= len ==> start == i
  {
    if i < 0 then (if i + len < 0 then 0 else i + len)
    else if i > len then len
    else i
  }

  /** `read_last_lines` as written: `readlines()[-num_lines:]`. */
  function ReadLastLinesAsWritten(lines: seq<string>, n: int): seq<string> {
    lines[SliceStart(-n, |lines|)..]
  }

  /** The last `min(n, |s|)` elements of `s`, in their original order: what `read_last_lines`
      is documented and evidently meant to return. */
  function LastLines<T>(s: seq<T>, n: nat): (r: seq<T>)
    ensures |r| == Min(n, |s|)
    ensures r == s[|s| - |r|..]
  {
    if n >= |s| then s else s[|s| - n..]
  }

  /** For every positive count the slice as written keeps exactly the last lines. */
  lemma AsWrittenAgreesForPositiveCounts(lines: seq<string>, n: int)
    requires n > 0
    ensures ReadLastLinesAsWritten(lines, n) == LastLines(lines, n)
  {
  }

  /** With a count of 0 the slice as written, `lines[-0:]`, is `lines[0:]`: it returns the whole
      file instead of no lines. */
  lemma {:induction false} ZeroCountReturnsEverything(lines: seq<string>)
    requires lines != []
    ensures ReadLastLinesAsWritten(lines, 0) == lines
    ensures LastLines(lines, 0) == [] != lines
  {
    assert SliceStart(0, |lines|) == 0;
  }

  /** Joining a trailing run of lines gives a trailing part of the joined whole. */
  lemma {:induction false} JoinOfTail(parts: seq<string>, k: nat)
    requires k <= |parts|
    ensures IsSuffix(Join(parts[k..]), Join(parts))
  {
    if k > 0 {
      JoinOfTail(parts[1..], k - 1);
      assert parts[1..][k - 1..] == parts[k..];
      assert Join(parts) == parts[0] + Join(parts[1..]);
    }
  }

  /** The log text `cmd_log` shows for a non-empty file: the last 30 lines joined, cut to
      their last 4000 characters when longer. */
  function ShownContent(lines: seq<string>): (content: string)
    ensures |content| == Min(|Join(LastLines(lines, NumLines))|, MaxContent)
    ensures IsSuffix(content, Join(LastLines(lines, NumLines)))
  {
    var joined := Join(LastLines(lines, NumLines));
    if |joined| > MaxContent then joined[|joined| - MaxContent..] else joined
  }

  /** The HTML message for a non-empty file. */
  function LogMessage(lines: seq<string>): string {
    var last := LastLines(lines, NumLines);
    "<b>Last " + IntToString(Min(|last|, NumLines)) + " Log Entries:</b>\n<pre>"
    + ShownContent(lines) + "</pre>"
  }

  function Failure(error: string): string {
    "Failed to read log file: " + error
  }

  /** `cmd_log`. `sendError` is what the answer made inside the `try` raises, if it fails;
      that error is caught and answered like a read error. */
  method CmdLog(file: LogFile, sendError: Option<string>) returns (answers: seq<Answer>)
    ensures file.Missing? ==> answers == [Answer(MissingNotice, false)]
    ensures file.Unreadable? ==> answers == [Answer(Failure(file.error), false)]
    ensures file.Present? ==>
      |answers| == (if sendError.Some? then 2 else 1)
      && answers[0] == (if file.lines == [] then Answer(EmptyNotice, false)
                        else Answer(LogMessage(file.lines), true))
      && (sendError.Some? ==> answers[1] == Answer(Failure(sendError.value), false))
  {
    if file.Missing? {
      return [Answer(MissingNotice, false)];
    }
    if file.Unreadable? {
      return [Answer(Failure(file.error), false)];
    }
    var lastLines := LastLines(file.lines, NumLines);
    var attempt: Answer;
    if lastLines == [] {
      attempt := Answer(EmptyNotice, false);
    } else {
      var logContent := Join(lastLines);
      if |logContent| > MaxContent {
        logContent := logContent[|logContent| - MaxContent..];
      }
      attempt := Answer("<b>Last " + IntToString(Min(|lastLines|, NumLines)) + " Log Entries:</b>\n<pre>"
                        + logContent + "</pre>", true);
    }
    answers := [attempt];
    if sendError.Some? {
      answers := answers + [Answer(Failure(sendError.value), false)];
    }
  }

  /** What a non-empty log's message shows is the end of the log file, at most 4000
      characters of it, and the whole of the last 30 lines when they fit. */
  lemma ShownIsEndOfLog(lines: seq<string>)
    ensures |ShownContent(lines)| <= MaxContent
    ensures IsSuffix(ShownContent(lines), Join(lines))
    ensures |Join(LastLines(lines, NumLines))| <= MaxContent ==>
      ShownContent(lines) == Join(LastLines(lines, NumLines))
  {
    JoinOfTail(lines, |lines| - |LastLines(lines, NumLines)|);
    SuffixTransitive(ShownContent(lines), Join(LastLines(lines, NumLines)), Join(lines));
  }

  /** The count in the header is the number of lines shown, min(lines in the file, 30);
      the `min` in the header can never lower it. */
  lemma HeaderCountIsLinesShown(lines: seq<string>)
    ensures Min(|LastLines(lines, NumLines)|, NumLines) == |LastLines(lines, NumLines)| == Min(|lines|, NumLines)
  {
  }

  /** The empty notice is sent exactly when the file has no lines. */
  lemma EmptyExactlyWithoutLines(lines: seq<string>)
    ensures LastLines(lines, NumLines) == [] <==> lines == []
  {
  }
}
