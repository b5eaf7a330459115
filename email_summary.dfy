/** The size classifiers of `emailService.js`: `getSizeRecommendation`, the counts
    of `getFolderSizeSummary` and the small-file filter of `sendSmallFilesOnly`. Sizes are kept in bytes; the human-readable rendering
    of `formatFileSize` is not part of this model. */
module EmailSummary {
  import opened Wrappers
  import opened Text
  import opened FileUtils
  import opened EmailSizeCheck

  /** The files larger than `limit` bytes, in order. */
  function OverLimit(files: seq<FileInfo>, limit: int): (r: seq<FileInfo>)
    ensures forall f :: f in r <==> f in files && f.size > limit
  {
    if files == [] then []
    else
      var last := files[|files| - 1];
      assert files == files[..|files| - 1] + [last];
      OverLimit(files[..|files| - 1], limit) + (if last.size > limit then [last] else [])
  }

  /** The files of at most `limit` bytes, in order. */
  function WithinLimit(files: seq<FileInfo>, limit: int): (r: seq<FileInfo>)
    ensures forall f :: f in r <==> f in files && f.size <= limit
  {
    if files == [] then []
    else
      var last := files[|files| - 1];
      assert files == files[..|files| - 1] + [last];
      WithinLimit(files[..|files| - 1], limit) + (if last.size <= limit then [last] else [])
  }

  /** The files over the per-file limit, in order. */
  function Oversized(files: seq<FileInfo>): (r: seq<FileInfo>)
    ensures forall f :: f in r <==> f in files && f.size > MaxAttachmentSize
  {
    OverLimit(files, MaxAttachmentSize)
  }

  /** The files within the per-file limit, in order. */
  function Sendable(files: seq<FileInfo>): (r: seq<FileInfo>)
    ensures forall f :: f in r <==> f in files && f.size <= MaxAttachmentSize
  {
    WithinLimit(files, MaxAttachmentSize)
  }

  lemma SumAppend(s: seq<FileInfo>, t: seq<FileInfo>)
    ensures SumFileSizes(s + t) == SumFileSizes(s) + SumFileSizes(t)
    decreases |t|
  {
    if t != [] {
      var u := t[..|t| - 1];
      assert (s + t)[..|s + t| - 1] == s + u;
      SumAppend(s, u);
    } else {
      assert s + t == s;
    }
  }

  /** The two filters split the folder at any limit: every file is counted once, and
      the byte totals add up. */
  lemma {:induction false} SplitByLimit(files: seq<FileInfo>, limit: int)
    ensures |OverLimit(files, limit)| + |WithinLimit(files, limit)| == |files|
    ensures SumFileSizes(OverLimit(files, limit)) + SumFileSizes(WithinLimit(files, limit)) == SumFileSizes(files)
  {
    if files != [] {
      var init, last := files[..|files| - 1], files[|files| - 1];
      SplitByLimit(init, limit);
      var o, s := OverLimit(init, limit), WithinLimit(init, limit);
      assert SumFileSizes(files) == SumFileSizes(init) + last.size;
      assert SumFileSizes([last]) == last.size by { assert [last][..0] == []; }
      if last.size > limit {
        assert OverLimit(files, limit) == o + [last] && WithinLimit(files, limit) == s;
        SumAppend(o, [last]);
      } else {
        assert OverLimit(files, limit) == o && WithinLimit(files, limit) == s + [last];
        SumAppend(s, [last]);
      }
    }
  }

  /** At the 15 MiB per-file limit. */
  lemma SplitBySize(files: seq<FileInfo>)
    ensures |Oversized(files)| + |Sendable(files)| == |files|
    ensures SumFileSizes(Oversized(files)) + SumFileSizes(Sendable(files)) == SumFileSizes(files)
  {
    SplitByLimit(files, MaxAttachmentSize);
  }

  /** The batch size the recommendation divides by: 15 MiB. */
  const RecommendedBatchSize: nat := 15 * 1024 * 1024

  datatype Recommendation = SplitInto(batches: nat) | SmallFilesOnly | OneEmail {
    function Text(): string {
      match this
      case SplitInto(n) => "Split into " + NatToString(n) + " batches using sendInBatches()"
      case SmallFilesOnly => "Use sendSmallFilesOnly() or handle large files separately"
      case OneEmail => "All files can be sent in one email"
    }
  }

  /** `getSizeRecommendation(files)`: the message limit is checked first, then the
      per-file limit. `Math.ceil(total / 15 MiB)` is the least `n` with
      `n * 15 MiB >= total`. */
  function SizeRecommendation(files: seq<FileInfo>): (r: Recommendation)
    ensures r.SplitInto? <==> SumFileSizes(files) > MaxEmailSize
    ensures r.SplitInto? ==> (r.batches - 1) * RecommendedBatchSize < SumFileSizes(files) <= r.batches * RecommendedBatchSize
    ensures r.SplitInto? ==> r.batches >= 2
    ensures r == SmallFilesOnly <==> SumFileSizes(files) <= MaxEmailSize && Oversized(files) != []
    ensures r == OneEmail <==> SumFileSizes(files) <= MaxEmailSize && Oversized(files) == []
  {
    var total := SumFileSizes(files);
    if total > MaxEmailSize then SplitInto((total + RecommendedBatchSize - 1) / RecommendedBatchSize)
    else if |Oversized(files)| > 0 then SmallFilesOnly
    else OneEmail
  }

  /** "All files can be sent in one email" is borne out by the greedy size check:
      it accepts every file of the folder. */
  lemma OneEmailAcceptsEverything(files: seq<FileInfo>, i: nat)
    requires SizeRecommendation(files) == OneEmail
    requires i < |files|
    ensures VerdictAt(files, i) == Accept
  {
    assert files[i] in files;
    assert files[i] !in Oversized(files);
    FittingFolderAcceptsAllSmallFiles(files, i);
  }

  /** The greedy check never attaches more files than the summary calls sendable. */
  lemma {:induction false} AcceptedAtMostSendable(files: seq<FileInfo>, n: nat)
    requires n <= |files|
    ensures |AcceptedUpTo(files, n)| <= |Sendable(files[..n])|
  {
    if n > 0 {
      AcceptedAtMostSendable(files, n - 1);
      assert files[..n][..n - 1] == files[..n - 1];
    }
  }

  /** The summary object, with sizes in bytes. */
  datatype FolderSummary = FolderSummary(
    totalFiles: nat, totalSize: nat, sendableFiles: int, sendableSize: int,
    oversizedFiles: nat, oversizedNames: seq<(string, nat)>, recommendation: Recommendation)

  function NamesAndSizes(files: seq<FileInfo>): (r: seq<(string, nat)>)
    ensures |r| == |files|
    ensures forall i :: 0 <= i < |files| ==> r[i] == (files[i].filename, files[i].size)
  {
    if files == [] then [] else [(files[0].filename, files[0].size)] + NamesAndSizes(files[1..])
  }

  /** `getFolderSizeSummary` over an already listed folder: the source subtracts the
      oversized count and bytes from the totals. */
  function Summarize(files: seq<FileInfo>): (r: FolderSummary)
    ensures r.totalFiles == |files| && r.totalSize == SumFileSizes(files)
    ensures r.sendableFiles == |Sendable(files)| && r.sendableSize == SumFileSizes(Sendable(files))
    ensures r.oversizedFiles + r.sendableFiles == r.totalFiles
    ensures r.oversizedNames == NamesAndSizes(Oversized(files))
    ensures r.recommendation == SizeRecommendation(files)
  {
    SplitBySize(files);
    var over := Oversized(files);
    var total := SumFileSizes(files);
    FolderSummary(|files|, total, |files| - |over|, total - SumFileSizes(over), |over|,
                  NamesAndSizes(over), SizeRecommendation(files))
  }

  /** `getFolderSizeSummary(folderPath)`: the folder is listed with no extension filter. */
  function FolderSizeSummary(folderPath: string, folder: Folder): (r: FolderSummary)
    ensures r == Summarize(Listing(folderPath, folder, []))
    ensures folderPath == [] ==> r.totalFiles == 0 && r.recommendation == OneEmail
  {
    Summarize(Listing(folderPath, folder, []))
  }

  /** The `maxSizeMB` of `sendSmallFilesOnly` when the caller leaves it out. */
  const DefaultSmallFileMB: int := 10

  /** The body of `sendSmallFilesOnly` when the caller leaves it out. */
  const DefaultSmallFilesBody: string := "Please find the attached files."

  /** The message `sendSmallFilesOnly` hands to `sendEmailWithFolderAttachments`. */
  datatype SmallFilesMail = SmallFilesMail(subject: string, text: string, attachments: seq<Attachment>)

  /** The note appended to the body when some files were left out. */
  function ExclusionNote(excluded: nat, maxSizeMB: int): (r: string)
    ensures r == [] <==> excluded == 0
  {
    if excluded == 0 then ""
    else "\n\nNote: " + NatToString(excluded) + " files were excluded as they exceed "
         + IntToString(maxSizeMB) + "MB size limit."
  }

  /** `sendSmallFilesOnly(to, subject, folderPath, maxSizeMB, bodyText)` up to the
      send: the unfiltered listing is split at `maxSizeMB` MiB, the small files
      become the attachments, and the subject and body say what was left out.
      `None` stands for an omitted argument. */
  method SendSmallFilesOnly(subject: string, folderPath: string, folder: Folder,
                            maxSizeMB: Option<int>, bodyText: Option<string>)
    returns (mail: SmallFilesMail, excluded: nat)
    ensures var mb := maxSizeMB.GetOr(DefaultSmallFileMB);
            var files := Listing(folderPath, folder, []);
            && mail.attachments == FilesToAttachments(WithinLimit(files, mb * 1024 * 1024))
            && excluded == |OverLimit(files, mb * 1024 * 1024)|
            && excluded + |mail.attachments| == |files|
            && mail.subject == subject + " (Files under " + IntToString(mb) + "MB)"
            && mail.text == bodyText.GetOr(DefaultSmallFilesBody) + ExclusionNote(excluded, mb)
    ensures maxSizeMB.None? ==> mail.subject == subject + " (Files under 10MB)"
  {
    var mb := maxSizeMB.GetOr(DefaultSmallFileMB);
    var maxSize := mb * 1024 * 1024;
    var files := GetFilesFromFolder(folderPath, folder, []);
    var smallFiles := WithinLimit(files, maxSize);
    var largeFiles := OverLimit(files, maxSize);
    SplitByLimit(files, maxSize);
    var attachments := FilesToAttachments(smallFiles);
    excluded := |largeFiles|;
    var text := bodyText.GetOr(DefaultSmallFilesBody) + ExclusionNote(excluded, mb);
    mail := SmallFilesMail(subject + " (Files under " + IntToString(mb) + "MB)", text, attachments);
    if maxSizeMB.None? {
      DefaultSmallFileMBText();
    }
  }

  lemma DefaultSmallFileMBText()
    ensures IntToString(DefaultSmallFileMB) == "10"
  {
    assert NatToString(10) == NatToString(1) + [Digit(0)];
  }

  /** Every small-file attachment is a listed file of at most `limit` bytes. */
  lemma SmallAttachmentsFit(files: seq<FileInfo>, limit: int, i: nat)
    requires i < |FilesToAttachments(WithinLimit(files, limit))|
    ensures exists f :: f in files && f.size <= limit
                        && FilesToAttachments(WithinLimit(files, limit))[i] == Attachment(f.filename, f.path)
  {
    var small := WithinLimit(files, limit);
    assert small[i] in small;
  }
}
