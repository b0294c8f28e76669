/**
 * The drag-and-drop file picker: the list of picked files, what a drop does
 * in multiple and in single mode (with the optional cap on the number of
 * files), and the removal of one file by position.
 */
module FilePicker {
  import opened Wrappers

  /** A picked file; only its identity matters here. */
  datatype File = File(name: string)

  /** `maxFilesCount`, whose default is `Infinity`. */
  datatype MaxFilesCount = Infinity | AtMost(n: nat)

  /** The argument of `onChange`: an array in multiple mode, a file or `null` in single mode. */
  datatype Change = Files(files: seq<File>) | SingleFile(file: Option<File>)

  /** `count >= maxFilesCount`; never true for `Infinity`. */
  predicate Reached(count: nat, max: MaxFilesCount) {
    max.AtMost? && count >= max.n
  }

  /** `acceptedFiles.slice(0, maxFilesCount)` when the batch is longer than the cap. */
  function CapBatch(batch: seq<File>, max: MaxFilesCount): (r: seq<File>)
    ensures r <= batch
    ensures max.AtMost? ==> |r| <= max.n
    ensures max.AtMost? && |batch| > max.n ==> |r| == max.n
    ensures max.Infinity? || |batch| <= max.n ==> r == batch
  {
    if max.AtMost? && |batch| > max.n then batch[..max.n] else batch
  }

  /** Whether a drop in multiple mode is refused and whether it warns. */
  predicate DropWarns(files: seq<File>, batch: seq<File>, max: MaxFilesCount) {
    Reached(|files|, max) || (max.AtMost? && |batch| > max.n)
  }

  /**
   * The list after `onDrop`: unchanged when the multiple-mode list is full,
   * otherwise the old list followed by the capped batch; in single mode the
   * first dropped file alone, or nothing.
   */
  function AfterDrop(files: seq<File>, batch: seq<File>, multiple: bool, max: MaxFilesCount): (r: seq<File>)
    ensures multiple && Reached(|files|, max) ==> r == files
    ensures multiple && !Reached(|files|, max) ==> r == files + CapBatch(batch, max)
    ensures !multiple ==> r == (if |batch| > 0 then [batch[0]] else [])
  {
    if multiple then
      if Reached(|files|, max) then files else files + CapBatch(batch, max)
    else if |batch| > 0 then [batch[0]] else []
  }

  /** `files.filter((_, i) => i !== index)`. */
  function RemoveAt(files: seq<File>, index: int): (r: seq<File>)
    ensures 0 <= index < |files| ==> |r| == |files| - 1
    ensures 0 <= index < |files| ==> forall j :: 0 <= j < index ==> r[j] == files[j]
    ensures 0 <= index < |files| ==> forall j :: index <= j < |r| ==> r[j] == files[j + 1]
    ensures !(0 <= index < |files|) ==> r == files
  {
    if 0 <= index < |files| then files[..index] + files[index + 1..] else files
  }

  /** Removal takes out exactly one occurrence of the file at `index`. */
  lemma RemoveAtMultiset(files: seq<File>, index: int)
    requires 0 <= index < |files|
    ensures multiset(RemoveAt(files, index)) + multiset{files[index]} == multiset(files)
  {
    assert files == files[..index] + [files[index]] + files[index + 1..];
  }

  /** What `removeFile` passes to `onChange` for the new list. */
  function Reported(files: seq<File>, multiple: bool): (c: Change)
    ensures multiple ==> c == Files(files)
    ensures !multiple ==> c.SingleFile? && (c.file.Some? <==> |files| > 0)
    ensures !multiple && |files| > 0 ==> c.file == Some(files[0])
  {
    if multiple then Files(files)
    else if |files| > 0 then SingleFile(Some(files[0])) else SingleFile(None)
  }

  /** With the default cap, a drop in multiple mode appends the whole batch. */
  lemma UnboundedNeverTruncates(files: seq<File>, batch: seq<File>)
    ensures AfterDrop(files, batch, true, Infinity) == files + batch
    ensures !DropWarns(files, batch, Infinity)
  {
  }

  /**
   * The cap applies to the batch alone: a list below the cap can end above it.
   * With a cap of 3, two stored files and a batch of three give five files.
   */
  lemma CapIsPerBatch(files: seq<File>, batch: seq<File>, n: nat)
    requires |files| < n <= |batch|
    ensures |AfterDrop(files, batch, true, AtMost(n))| == |files| + n
  {
  }

  /** In multiple mode the list only grows, keeping the old files first and in order. */
  lemma DropKeepsExisting(files: seq<File>, batch: seq<File>, max: MaxFilesCount)
    ensures files <= AfterDrop(files, batch, true, max)
  {
  }

  /** A single-mode drop never leaves more than one file. */
  lemma SingleModeHoldsOne(files: seq<File>, batch: seq<File>, max: MaxFilesCount)
    ensures |AfterDrop(files, batch, false, max)| <= 1
  {
  }

  class FilePickerState {
    const multiple: bool
    const maxFilesCount: MaxFilesCount
    var files: seq<File>

    constructor (multiple: bool, maxFilesCount: MaxFilesCount)
      ensures this.multiple == multiple && this.maxFilesCount == maxFilesCount
      ensures files == []
    {
      this.multiple := multiple;
      this.maxFilesCount := maxFilesCount;
      files := [];
    }

    /**
     * `onDrop(acceptedFiles)`: `change` is what `onChange` receives (`None`
     * when it is not called) and `warned` whether the maximum-count toast is
     * raised.
     */
    method OnDrop(acceptedFiles: seq<File>) returns (change: Option<Change>, warned: bool)
      modifies this
      ensures files == AfterDrop(old(files), acceptedFiles, multiple, maxFilesCount)
      ensures multiple ==> warned == DropWarns(old(files), acceptedFiles, maxFilesCount)
      ensures !multiple ==> !warned
      ensures multiple && Reached(|old(files)|, maxFilesCount) ==> change == None
      ensures multiple && !Reached(|old(files)|, maxFilesCount) ==> change == Some(Files(files))
      ensures !multiple ==> change == Some(Reported(files, false))
    {
      if multiple {
        if Reached(|files|, maxFilesCount) {
          return None, true;
        }
        var accepted := acceptedFiles;
        warned := false;
        if maxFilesCount.AtMost? && |accepted| > maxFilesCount.n {
          accepted := accepted[..maxFilesCount.n];
          warned := true;
        }
        var updatedFiles := files + accepted;
        files := updatedFiles;
        change := Some(Files(updatedFiles));
      } else {
        warned := false;
        if |acceptedFiles| > 0 {
          files := [acceptedFiles[0]];
          change := Some(SingleFile(Some(acceptedFiles[0])));
        } else {
          files := [];
          change := Some(SingleFile(None));
        }
      }
    }

    /** `removeFile(index)`: drop the file at `index` and report the new list. */
    method RemoveFile(index: int) returns (change: Change)
      modifies this
      ensures files == RemoveAt(old(files), index)
      ensures change == Reported(files, multiple)
    {
      var updatedFiles := RemoveAt(files, index);
      files := updatedFiles;
      if multiple {
        change := Files(updatedFiles);
      } else if |updatedFiles| > 0 {
        change := SingleFile(Some(updatedFiles[0]));
      } else {
        change := SingleFile(None);
      }
    }
  }
}
