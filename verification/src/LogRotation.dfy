/** `pkg/logrotation/logrotation.go`: the rotating logger over a directory of numbered files.
    Each method is proved against a function of the directory. */
module LogRotation {
  import opened LogText

  type Directory = map<int, Bytes>

  // ---------------------------------------------------------------- specification

  /** The contents of a file, a missing one counting as empty. */
  function Contents(files: Directory, i: int): (bytes: Bytes) {
    if i in files then files[i] else []
  }

  /** What is stored for a message: a single line feed ends it. */
  function Message(text: Bytes): (bytes: Bytes) {
    TrimSpace(text) + [LF]
  }

  function ReplaceLineFeeds(s: Bytes): (r: Bytes)
    ensures |r| == |s|
  {
    seq(|s|, i requires 0 <= i < |s| => if s[i] == LF then SPACE else s[i])
  }

  function Clean(s: Bytes): (bytes: Bytes) {
    ReplaceLineFeeds(TrimSpace(s))
  }

  predicate ShouldAppend(file: Bytes, message: Bytes, deduplicate: bool) {
    !deduplicate || Clean(message) != Clean(LastLine(file))
  }

  predicate IsFull(file: Bytes, message: Bytes, maxFileBytes: int) {
    |file| + |message| >= maxFileBytes
  }

  /** Whether file `i` exists after a rotation of `n` files: file 1 does, a later one if the file
      before it did, and a file outside 1..n if it did (with n < 1 the file n is removed as well). */
  predicate ExistsAfter(files: Directory, n: int, i: int) {
    || i == 1
    || (2 <= i <= n && i - 1 in files)
    || ((i < 1 || i > n) && i != n && i in files)
  }

  function ContentsAfter(files: Directory, n: int, i: int): (bytes: Bytes)
    requires ExistsAfter(files, n, i)
  {
    if i == 1 then [] else if 2 <= i <= n then files[i - 1] else files[i]
  }

  function Rotated(files: Directory, n: int): (r: Directory)
    ensures forall i :: i in r <==> ExistsAfter(files, n, i)
    ensures forall i | i in r :: r[i] == ContentsAfter(files, n, i)
  {
    (map i | i in files && ExistsAfter(files, n, i) :: ContentsAfter(files, n, i))
    + (map i | 1 <= i <= n && ExistsAfter(files, n, i) :: ContentsAfter(files, n, i))
    + map[1 := []]
  }

  /** A rotation of `n` files, file by file: file 1 is new and empty, every other one is what the file
      before it was, missing ones included, and files of other numbers are left alone. */
  lemma RotationShifts(files: Directory, n: int, i: int)
    requires n >= 1
    ensures var r := Rotated(files, n);
            if i == 1 then i in r && r[i] == []
            else if 2 <= i <= n then (i in r <==> i - 1 in files) && (i in r ==> r[i] == files[i - 1])
            else (i in r <==> i in files) && (i in r ==> r[i] == files[i])
  {
    var r := Rotated(files, n);
    assert i in r <==> ExistsAfter(files, n, i);
  }

  /** Half-way through the renaming loop: the files above `i` have been moved, `i` is vacant. */
  predicate ExistsDuring(before: Directory, n: int, i: int, k: int) {
    if i < k <= n then k - 1 in before else k != i && k in before
  }

  function ContentsDuring(before: Directory, n: int, i: int, k: int): (bytes: Bytes)
    requires ExistsDuring(before, n, i, k)
  {
    if i < k <= n then before[k - 1] else before[k]
  }

  ghost predicate During(before: Directory, n: int, i: int, files: Directory) {
    && (forall k :: k in files <==> ExistsDuring(before, n, i, k))
    && (forall k | k in files :: files[k] == ContentsDuring(before, n, i, k))
  }

  function Renamed(files: Directory, from: int, to: int): (next: Directory) {
    if from in files then (files - {from})[to := files[from]] else files
  }

  lemma RemovalStarts(before: Directory, n: int)
    ensures During(before, n, n, before - {n})
  {
  }

  lemma RenameMovesOn(before: Directory, n: int, i: int, files: Directory)
    requires 2 <= i <= n && During(before, n, i, files)
    ensures During(before, n, i - 1, Renamed(files, i - 1, i))
  {
    var files' := Renamed(files, i - 1, i);
    assert i - 1 in files <==> ExistsDuring(before, n, i, i - 1);
    assert i in files <==> ExistsDuring(before, n, i, i);
    forall k
      ensures k in files' <==> ExistsDuring(before, n, i - 1, k)
      ensures k in files' ==> files'[k] == ContentsDuring(before, n, i - 1, k)
    {
      assert k in files <==> ExistsDuring(before, n, i, k);
    }
  }

  lemma RotationDone(before: Directory, n: int, i: int, files: Directory)
    requires During(before, n, i, files) && if n < 1 then i == n else i == 1
    ensures files[1 := []] == Rotated(before, n)
  {
    var r, files' := Rotated(before, n), files[1 := []];
    forall k
      ensures k in r <==> k in files'
    {
      assert k in files <==> ExistsDuring(before, n, i, k);
      assert k in r <==> ExistsAfter(before, n, k);
    }
    forall k | k in r
      ensures r[k] == files'[k]
    {
      assert k in files <==> ExistsDuring(before, n, i, k);
      assert r[k] == ContentsAfter(before, n, k);
    }
  }

  function Opened(files: Directory): (next: Directory) {
    if 1 in files then files else files[1 := []]
  }

  function Appended(files: Directory, text: Bytes, deduplicate: bool, maxFileBytes: int, n: int): (next: Directory) {
    var before, message := Opened(files), Message(text);
    if !ShouldAppend(before[1], message, deduplicate) then before
    else
      var ready := if IsFull(before[1], message, maxFileBytes) then Rotated(before, n) else before;
      ready[1 := ready[1] + message]
  }

  function Reversed(s: Bytes): (r: Bytes)
    ensures |r| == |s|
  {
    seq(|s|, i requires 0 <= i < |s| => s[|s| - 1 - i])
  }

  // ---------------------------------------------------------------- the logger

  class RotatingLogger {
    const maxFileBytes: int
    const logFilesCount: int
    var files: Directory

    constructor (maxFileBytes: int, logFilesCount: int, files: Directory)
      ensures this.maxFileBytes == maxFileBytes && this.logFilesCount == logFilesCount && this.files == files
    {
      this.maxFileBytes := maxFileBytes;
      this.logFilesCount := logFilesCount;
      this.files := files;
    }

    method Init()
      modifies this
      ensures forall i :: i in files <==> i in old(files) || 1 <= i <= logFilesCount
      ensures forall i | i in files :: files[i] == Contents(old(files), i)
    {
      var i := 1;
      while i <= logFilesCount
        invariant 1 <= i && (i <= logFilesCount + 1 || i == 1)
        invariant forall j :: j in files <==> j in old(files) || 1 <= j < i
        invariant forall j | j in files :: files[j] == Contents(old(files), j)
      {
        if i !in files {
          files := files[i := []];
        }
        i := i + 1;
      }
    }

    /** os.Remove, a missing file being ignored. */
    method Remove(i: int)
      modifies this
      ensures files == old(files) - {i}
    {
      files := files - {i};
    }

    /** os.Rename, a missing file being ignored. */
    method Rename(from: int, to: int)
      requires from != to
      modifies this
      ensures files == Renamed(old(files), from, to)
    {
      if from in files {
        files := (files - {from})[to := files[from]];
      }
    }

    method PerformLogRotation()
      modifies this
      ensures files == Rotated(old(files), logFilesCount)
    {
      hide During, Rotated, Renamed;
      ghost var before := files;
      var n := logFilesCount;
      RemovalStarts(before, n);
      Remove(n);
      var i := n;
      while i >= 2
        invariant if n < 1 then i == n else 1 <= i <= n
        invariant During(before, n, i, files)
      {
        RenameMovesOn(before, n, i, files);
        Rename(i - 1, i);
        i := i - 1;
      }
      RotationDone(before, n, i, files);
      files := files[1 := []];
    }

    method CheckIfLogFileSizeExceeded(messageLength: nat) returns (exceeded: bool)
      requires 1 in files
      ensures exceeded <==> |files[1]| + messageLength >= maxFileBytes
    {
      return |files[1]| + messageLength >= maxFileBytes;
    }

    method GetLogLastLine() returns (line: Bytes)
      requires 1 in files
      ensures line == LastLine(files[1])
    {
      var file := files[1];
      var lineCharsBackwards: Bytes := [];
      var pos := |file|;
      assert file[..pos] == file;
      while pos > 0
        invariant 0 <= pos <= |file|
        invariant lineCharsBackwards == [] ==> LastLine(file) == LastLine(file[..pos])
        invariant lineCharsBackwards != [] ==> LastLine(file) == LastRun(file[..pos]) + Reversed(lineCharsBackwards)
      {
        var c := file[pos - 1];
        assert file[..pos][..pos - 1] == file[..pos - 1];
        if IsBreak(c) {
          if |lineCharsBackwards| > 0 {
            break;
          }
          pos := pos - 1;
          continue;
        }
        assert Reversed(lineCharsBackwards + [c]) == [c] + Reversed(lineCharsBackwards);
        assert LastRun(file[..pos]) == LastRun(file[..pos - 1]) + [c];
        lineCharsBackwards := lineCharsBackwards + [c];
        pos := pos - 1;
      }
      return Reversed(lineCharsBackwards);
    }

    method CheckIfMessageShouldBeAppended(currentLogLine: Bytes, deduplicateLine: bool) returns (r: bool)
      requires 1 in files
      ensures r <==> ShouldAppend(files[1], currentLogLine, deduplicateLine)
    {
      if !deduplicateLine {
        return true;
      }
      var lastLogLine := GetLogLastLine();
      return Clean(currentLogLine) != Clean(lastLogLine);
    }

    method Append(messageLine: Bytes, deduplicateLine: bool)
      modifies this
      ensures files == Appended(old(files), messageLine, deduplicateLine, maxFileBytes, logFilesCount)
    {
      var message := TrimSpace(messageLine) + [LF];
      if 1 !in files {
        files := files[1 := []];
      }
      var shouldBeAppended := CheckIfMessageShouldBeAppended(message, deduplicateLine);
      if !shouldBeAppended {
        return;
      }
      var logFileSizeExceeded := CheckIfLogFileSizeExceeded(|message|);
      if logFileSizeExceeded {
        PerformLogRotation();
      }
      files := files[1 := files[1] + message];
    }
  }
}
