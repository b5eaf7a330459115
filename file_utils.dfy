/** The folder helpers of `util.js`: listing the regular files of a folder with an
    optional extension filter, projecting file records to mail attachments, and the
    default-type and recent-file front ends. The file system is an input value: a
    `Folder` says what `existsSync`, `statSync` and `readdirSync` would report. */
module FileUtils {
  import opened Wrappers
  import opened Text

  /** What `fs.statSync` reports for one directory entry. Times are milliseconds. */
  datatype FileStat = FileStat(isFile: bool, size: nat, mtime: int)

  /** One name from `readdirSync`; `stat` is `None` when `statSync` throws. */
  datatype DirEntry = DirEntry(name: string, stat: Option<FileStat>)

  /** What the file system holds at a folder path. `Unlistable`: the path is a
      directory but `readdirSync` throws. `Uncreatable`: nothing is at the path and
      the `mkdirSync` of `ensureFolderExists` would throw with `error`; reading it
      gives what a missing path gives. */
  datatype Folder =
    | Missing
    | Uncreatable(error: string)
    | NotADirectory
    | Unlistable
    | Directory(entries: seq<DirEntry>)

  /** The record `getFilesFromFolder` pushes for each file it keeps. */
  datatype FileInfo = FileInfo(filename: string, path: string, size: nat, modified: int, extension: string)

  /** The `{ filename, path }` object handed to the mail transport. */
  datatype Attachment = Attachment(filename: string, path: string)

  /** Index of the last '.' of `name`, if any. */
  function LastDot(name: string): (r: Option<nat>)
    ensures r.Some? ==> r.value < |name| && name[r.value] == '.' && '.' !in name[r.value + 1..]
    ensures r.None? ==> '.' !in name
  {
    if name == [] then None
    else if name[|name| - 1] == '.' then Some(|name| - 1)
    else
      var r := LastDot(name[..|name| - 1]);
      assert name == name[..|name| - 1] + [name[|name| - 1]];
      if r.Some? then assert name[r.value + 1..] == name[..|name| - 1][r.value + 1..] + [name[|name| - 1]]; r
      else r
  }

  /** `path.extname` of a directory-entry name (which never contains '/'): from the
      last '.' to the end, except that a name without a dot, a name whose only dot
      leads it (".bashrc") and the name ".." have no extension. */
  function Extname(name: string): (ext: string)
    ensures ext == [] || (|ext| < |name| && ext == name[|name| - |ext|..] && ext[0] == '.' && '.' !in ext[1..])
  {
    match LastDot(name)
    case None => ""
    case Some(d) => if d == 0 || name == ".." then "" else name[d..]
  }

  /** A base name followed by "." and a dot-free suffix has that suffix as its
      extension, unless the whole name is ".." or the base is empty. */
  lemma ExtnameOf(base: string, suffix: string)
    requires base != [] && '.' !in suffix && !(base == "." && suffix == [])
    ensures Extname(base + "." + suffix) == "." + suffix
  {
    var name := base + "." + suffix;
    assert name[|base|] == '.';
    assert name[|base| + 1..] == suffix;
    var d := LastDot(name).value;
    assert d == |base|;
    assert name != ".." by {
      assert |name| == 2 ==> |base| == 1 && suffix == [] && base[0] == name[0];
      assert base == "." ==> base == [name[0]];
    }
  }

  /** `path.join(folder, name)`, without Node's normalisation of "." and ".." segments. */
  function Join(folder: string, name: string): string {
    if folder != [] && folder[|folder| - 1] == '/' then folder + name else folder + "/" + name
  }

  /** The test `getFilesFromFolder` applies to each entry: it can be stat'ed, it is a
      regular file, and either no extensions were given or its lower-cased extension
      is one of them (the list itself is not lower-cased). */
  predicate Included(e: DirEntry, allowed: seq<string>) {
    && e.stat.Some?
    && e.stat.value.isFile
    && (|allowed| == 0 || Lower(Extname(e.name)) in allowed)
  }

  function Info(folderPath: string, e: DirEntry): FileInfo
    requires e.stat.Some?
  {
    FileInfo(e.name, Join(folderPath, e.name), e.stat.value.size, e.stat.value.mtime, Lower(Extname(e.name)))
  }

  /** The records kept from `entries`, in listing order. */
  function Collect(folderPath: string, entries: seq<DirEntry>, allowed: seq<string>): seq<FileInfo>
    decreases |entries|
  {
    if entries == [] then []
    else
      var e := entries[|entries| - 1];
      Collect(folderPath, entries[..|entries| - 1], allowed)
        + (if Included(e, allowed) then [Info(folderPath, e)] else [])
  }

  /** What `getFilesFromFolder(folderPath, allowed)` returns: nothing for an empty
      path, a missing path, a non-directory or an unlistable directory; otherwise the
      kept records. */
  function Listing(folderPath: string, folder: Folder, allowed: seq<string>): seq<FileInfo> {
    if folderPath == [] then []
    else match folder
      case Directory(entries) => Collect(folderPath, entries, allowed)
      case _ => []
  }

  /** `getFilesFromFolder`: one pass over the directory listing, pushing a record for
      every entry that passes the test. */
  method GetFilesFromFolder(folderPath: string, folder: Folder, allowed: seq<string>)
    returns (fileList: seq<FileInfo>)
    ensures fileList == Listing(folderPath, folder, allowed)
    ensures folderPath == [] || !folder.Directory? ==> fileList == []
  {
    if folderPath == [] || !folder.Directory? {
      return [];
    }
    var entries := folder.entries;
    fileList := [];
    var i := 0;
    while i < |entries|
      invariant 0 <= i <= |entries|
      invariant fileList == Collect(folderPath, entries[..i], allowed)
    {
      var e := entries[i];
      assert entries[..i + 1][..i] == entries[..i];
      if e.stat.Some? {
        var st := e.stat.value;
        if st.isFile {
          var ext := Lower(Extname(e.name));
          if |allowed| == 0 || ext in allowed {
            fileList := fileList + [FileInfo(e.name, Join(folderPath, e.name), st.size, st.mtime, ext)];
          }
        }
      }
      i := i + 1;
    }
    assert entries[..i] == entries;
  }

  /** Listing distributes over concatenation of directory listings: each entry is
      judged on its own, and the output keeps listing order. In particular an entry
      that cannot be stat'ed drops out without disturbing the others. */
  lemma {:induction false} CollectAppend(folderPath: string, a: seq<DirEntry>, b: seq<DirEntry>, allowed: seq<string>)
    ensures Collect(folderPath, a + b, allowed) == Collect(folderPath, a, allowed) + Collect(folderPath, b, allowed)
    decreases |b|
  {
    if b == [] {
      assert a + b == a;
    } else {
      var ab := a + b;
      assert ab[..|ab| - 1] == a + b[..|b| - 1];
      CollectAppend(folderPath, a, b[..|b| - 1], allowed);
    }
  }

  lemma UnreadableEntrySkipped(folderPath: string, a: seq<DirEntry>, name: string, b: seq<DirEntry>, allowed: seq<string>)
    ensures Collect(folderPath, a + [DirEntry(name, None)] + b, allowed)
         == Collect(folderPath, a, allowed) + Collect(folderPath, b, allowed)
  {
    CollectAppend(folderPath, a + [DirEntry(name, None)], b, allowed);
    CollectAppend(folderPath, a, [DirEntry(name, None)], allowed);
    assert Collect(folderPath, [DirEntry(name, None)], allowed) == [] by {
      assert [DirEntry(name, None)][..0] == [];
    }
  }

  /** Entry `i` passes the test and its record is `f`. */
  predicate RecordOf(folderPath: string, entries: seq<DirEntry>, allowed: seq<string>, f: FileInfo, i: int) {
    0 <= i < |entries| && Included(entries[i], allowed) && f == Info(folderPath, entries[i])
  }

  /** Every record comes from an entry that passes the test. */
  lemma {:induction false} CollectSound(folderPath: string, entries: seq<DirEntry>, allowed: seq<string>, f: FileInfo)
    returns (i: nat)
    requires f in Collect(folderPath, entries, allowed)
    ensures RecordOf(folderPath, entries, allowed, f, i)
    decreases |entries|
  {
    var n := |entries| - 1;
    var init := entries[..n];
    if f in Collect(folderPath, init, allowed) {
      i := CollectSound(folderPath, init, allowed, f);
      assert entries[i] == init[i];
    } else {
      i := n;
    }
  }

  /** Every entry that passes the test contributes its record. */
  lemma {:induction false} CollectComplete(folderPath: string, entries: seq<DirEntry>, allowed: seq<string>, f: FileInfo, i: nat)
    requires RecordOf(folderPath, entries, allowed, f, i)
    ensures f in Collect(folderPath, entries, allowed)
    decreases |entries|
  {
    var n := |entries| - 1;
    var init := entries[..n];
    if i < n {
      assert init[i] == entries[i];
      CollectComplete(folderPath, init, allowed, f, i);
    }
  }

  /** Exactly the entries that pass the test contribute a record, and every record
      comes from such an entry. */
  lemma CollectMembers(folderPath: string, entries: seq<DirEntry>, allowed: seq<string>, f: FileInfo)
    ensures f in Collect(folderPath, entries, allowed) <==> exists i :: RecordOf(folderPath, entries, allowed, f, i)
  {
    if f in Collect(folderPath, entries, allowed) {
      var i := CollectSound(folderPath, entries, allowed, f);
    }
    if exists i :: RecordOf(folderPath, entries, allowed, f, i) {
      var i :| RecordOf(folderPath, entries, allowed, f, i);
      CollectComplete(folderPath, entries, allowed, f, i);
    }
  }

  /** With no extension list every regular file that can be stat'ed is listed. */
  lemma EmptyFilterKeepsEveryFile(folderPath: string, entries: seq<DirEntry>, i: nat)
    requires i < |entries| && entries[i].stat.Some? && entries[i].stat.value.isFile
    ensures Info(folderPath, entries[i]) in Collect(folderPath, entries, [])
  {
    CollectMembers(folderPath, entries, [], Info(folderPath, entries[i]));
  }

  predicate HasUpper(s: string) {
    exists k :: 0 <= k < |s| && IsUpper(s[k])
  }

  /** Extensions are lower-cased before the lookup but the list is not, so a
      non-empty list whose every entry has an upper-case letter ('.PDF') keeps
      nothing. */
  lemma {:induction false} UpperCaseFilterKeepsNothing(folderPath: string, entries: seq<DirEntry>, allowed: seq<string>)
    requires |allowed| > 0 && forall x :: x in allowed ==> HasUpper(x)
    ensures Collect(folderPath, entries, allowed) == []
    decreases |entries|
  {
    if entries != [] {
      UpperCaseFilterKeepsNothing(folderPath, entries[..|entries| - 1], allowed);
    }
  }

  /** `filesToAttachments`: each record becomes `{ filename, path }`, in order. */
  function FilesToAttachments(files: seq<FileInfo>): (r: seq<Attachment>)
    ensures |r| == |files|
    ensures forall i :: 0 <= i < |files| ==> r[i].filename == files[i].filename && r[i].path == files[i].path
  {
    if files == [] then [] else [Attachment(files[0].filename, files[0].path)] + FilesToAttachments(files[1..])
  }

  lemma {:induction false} FilesToAttachmentsAppend(a: seq<FileInfo>, b: seq<FileInfo>)
    ensures FilesToAttachments(a + b) == FilesToAttachments(a) + FilesToAttachments(b)
  {
    var l, r := FilesToAttachments(a + b), FilesToAttachments(a) + FilesToAttachments(b);
    assert |l| == |r|;
    forall i | 0 <= i < |l| ensures l[i] == r[i] {
      if i < |a| { assert (a + b)[i] == a[i]; } else { assert (a + b)[i] == b[i - |a|]; }
    }
  }

  /** The default list of `getFilesByType`. */
  const DefaultTypes: seq<string> := [".pdf", ".doc", ".docx", ".xlsx", ".jpg", ".png", ".txt"]

  /** `getFilesByType`: the listing filtered by `fileTypes`, or by the default list
      when the argument is omitted (`None`). */
  method GetFilesByType(folderPath: string, folder: Folder, fileTypes: Option<seq<string>>)
    returns (files: seq<FileInfo>)
    ensures fileTypes.None? ==> files == Listing(folderPath, folder, DefaultTypes)
    ensures fileTypes.Some? ==> files == Listing(folderPath, folder, fileTypes.value)
  {
    files := GetFilesFromFolder(folderPath, folder, fileTypes.GetOr(DefaultTypes));
  }

  /** A file named "Scan.PDF" passes the default filter: its extension is lower-cased
      before the lookup. */
  lemma DefaultTypesAcceptUpperCaseName(size: nat, mtime: int)
    ensures Included(DirEntry("Scan.PDF", Some(FileStat(true, size, mtime))), DefaultTypes)
  {
    ExtnameOf("Scan", "PDF");
    assert Lower(".PDF") == ".pdf";
  }

  /** The largest distance from the epoch, in milliseconds, that a JavaScript `Date`
      can hold; further out, `new Date(...)` is an Invalid Date. */
  const MaxTimeValue: int := 8_640_000_000_000_000

  predicate ValidTime(t: int) {
    -MaxTimeValue <= t <= MaxTimeValue
  }

  /** The `hours` of `getRecentFiles` when the caller leaves it out. */
  const DefaultHours: int := 24

  /** `getRecentFiles` keeps files modified strictly after this instant. */
  function Cutoff(now: int, hours: int): int {
    now - hours * 60 * 60 * 1000
  }

  /** The `filter(file => new Date(file.modified) > cutoffTime)` of `getRecentFiles`
      against a valid cutoff: a comparison with an Invalid Date is false. */
  function ModifiedAfter(files: seq<FileInfo>, cutoff: int): (r: seq<FileInfo>)
    ensures |r| <= |files|
    ensures forall f :: f in r <==> f in files && ValidTime(f.modified) && f.modified > cutoff
  {
    if files == [] then []
    else
      (if ValidTime(files[0].modified) && files[0].modified > cutoff then [files[0]] else [])
        + ModifiedAfter(files[1..], cutoff)
  }

  /** `getRecentFiles(folderPath, hours)` with the clock reading `now` as an input;
      `None` stands for the omitted argument. An out-of-range cutoff is an Invalid
      Date, against which every comparison fails, so nothing is kept. */
  method GetRecentFiles(folderPath: string, folder: Folder, now: int, hours: Option<int>)
    returns (files: seq<FileInfo>)
    ensures var cutoff := Cutoff(now, hours.GetOr(DefaultHours));
      files == (if ValidTime(cutoff) then ModifiedAfter(Listing(folderPath, folder, []), cutoff) else [])
    ensures hours.None? ==> forall f :: f in files ==> f.modified > now - 24 * 3600000
    ensures forall f :: f in files ==> f in Listing(folderPath, folder, []) && f.modified > now - hours.GetOr(24) * 3600000
    ensures ValidTime(Cutoff(now, hours.GetOr(24))) ==>
      forall f :: f in Listing(folderPath, folder, []) && ValidTime(f.modified) && f.modified > Cutoff(now, hours.GetOr(24)) ==> f in files
  {
    var all := GetFilesFromFolder(folderPath, folder, []);
    var cutoff := Cutoff(now, hours.GetOr(DefaultHours));
    if ValidTime(cutoff) {
      files := ModifiedAfter(all, cutoff);
    } else {
      files := [];
    }
  }
}
