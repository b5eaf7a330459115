/** The attachment size budget of `emailService.js`: the greedy one-pass filter of
    `getAttachmentsWithSizeCheck`, the same two limits applied to additional
    attachments in `sendEmailWithFolderAttachments`, and that method's decisions
    with the SMTP transport's answers as inputs. */
module EmailSizeCheck {
  import opened Wrappers
  import opened FileUtils

  /** `MAX_EMAIL_SIZE`: 20 MiB for one message. */
  const MaxEmailSize: nat := 20 * 1024 * 1024
  /** `MAX_ATTACHMENT_SIZE`: 15 MiB for one file. */
  const MaxAttachmentSize: nat := 15 * 1024 * 1024

  datatype Verdict = Accept | TooLarge | OverTotal

  /** The two limits in the order the source tests them: the per-file limit first,
      then whether the running total would pass the message limit. */
  function Admit(size: nat, total: int): (v: Verdict)
    ensures v == TooLarge <==> size > MaxAttachmentSize
    ensures v == Accept <==> size <= MaxAttachmentSize && total + size <= MaxEmailSize
  {
    if size > MaxAttachmentSize then TooLarge
    else if total + size > MaxEmailSize then OverTotal
    else Accept
  }

  /** An accepted folder file, `{ filename, path, size }`. */
  datatype SizedAttachment = SizedAttachment(filename: string, path: string, size: nat)

  datatype RejectReason = ExceedsFileLimit | ExceedsTotalLimit {
    function Text(): string {
      match this
      case ExceedsFileLimit => "Exceeds individual file size limit"
      case ExceedsTotalLimit => "Would exceed total email size limit"
    }
  }

  /** A skipped folder file, `{ filename, path, size, reason }`. */
  datatype OversizedFile = OversizedFile(filename: string, path: string, size: nat, reason: RejectReason)

  /** The `{ attachments, totalSize, oversizedFiles }` result. */
  datatype SizeCheck = SizeCheck(attachments: seq<SizedAttachment>, totalSize: nat, oversizedFiles: seq<OversizedFile>)

  /** Sum of the sizes of the files among the first `i` that were accepted: the
      running total when file `i` is examined. */
  function TotalBefore(files: seq<FileInfo>, i: nat): nat
    requires i <= |files|
    decreases i, 0
  {
    if i == 0 then 0
    else TotalBefore(files, i - 1) + (if VerdictAt(files, i - 1) == Accept then files[i - 1].size else 0)
  }

  /** How file `i` is judged: against the total of the files accepted before it. */
  function VerdictAt(files: seq<FileInfo>, i: nat): Verdict
    requires i < |files|
    decreases i, 1
  {
    Admit(files[i].size, TotalBefore(files, i))
  }

  function Sized(f: FileInfo): SizedAttachment {
    SizedAttachment(f.filename, f.path, f.size)
  }

  function Rejection(f: FileInfo, v: Verdict): OversizedFile {
    OversizedFile(f.filename, f.path, f.size, if v == TooLarge then ExceedsFileLimit else ExceedsTotalLimit)
  }

  /** The accepted files among the first `n`, in input order. */
  function AcceptedUpTo(files: seq<FileInfo>, n: nat): seq<SizedAttachment>
    requires n <= |files|
  {
    if n == 0 then []
    else AcceptedUpTo(files, n - 1) + (if VerdictAt(files, n - 1) == Accept then [Sized(files[n - 1])] else [])
  }

  /** The rejected files among the first `n`, in input order, with their reasons. */
  function RejectedUpTo(files: seq<FileInfo>, n: nat): seq<OversizedFile>
    requires n <= |files|
  {
    if n == 0 then []
    else
      var v := VerdictAt(files, n - 1);
      RejectedUpTo(files, n - 1) + (if v != Accept then [Rejection(files[n - 1], v)] else [])
  }

  /** The loop of `getAttachmentsWithSizeCheck` over an already listed folder. */
  method CheckSizes(files: seq<FileInfo>) returns (result: SizeCheck)
    ensures result.attachments == AcceptedUpTo(files, |files|)
    ensures result.oversizedFiles == RejectedUpTo(files, |files|)
    ensures result.totalSize == TotalBefore(files, |files|)
  {
    var attachments: seq<SizedAttachment> := [];
    var oversizedFiles: seq<OversizedFile> := [];
    var totalSize: nat := 0;
    var i := 0;
    while i < |files|
      invariant 0 <= i <= |files|
      invariant totalSize == TotalBefore(files, i)
      invariant attachments == AcceptedUpTo(files, i)
      invariant oversizedFiles == RejectedUpTo(files, i)
    {
      var file := files[i];
      if file.size > MaxAttachmentSize {
        oversizedFiles := oversizedFiles + [OversizedFile(file.filename, file.path, file.size, ExceedsFileLimit)];
      } else if totalSize + file.size > MaxEmailSize {
        oversizedFiles := oversizedFiles + [OversizedFile(file.filename, file.path, file.size, ExceedsTotalLimit)];
      } else {
        attachments := attachments + [SizedAttachment(file.filename, file.path, file.size)];
        totalSize := totalSize + file.size;
      }
      i := i + 1;
    }
    result := SizeCheck(attachments, totalSize, oversizedFiles);
  }

  /** `getAttachmentsWithSizeCheck(folderPath, allowedExtensions)`. An empty path
      gives the empty result. Otherwise the source first creates a missing folder:
      when that throws, the returned promise rejects, which is `None` here; a freshly
      created folder lists as empty, exactly like a missing one. Then the folder is
      listed and budgeted. */
  method GetAttachmentsWithSizeCheck(folderPath: string, folder: Folder, allowed: seq<string>)
    returns (result: Option<SizeCheck>)
    ensures folderPath == [] ==> result == Some(SizeCheck([], 0, []))
    ensures result.None? <==> folderPath != [] && folder.Uncreatable?
    ensures result.Some? ==>
            var files := Listing(folderPath, folder, allowed);
            && result.value.attachments == AcceptedUpTo(files, |files|)
            && result.value.oversizedFiles == RejectedUpTo(files, |files|)
            && result.value.totalSize == TotalBefore(files, |files|)
  {
    if folderPath == [] {
      return Some(SizeCheck([], 0, []));
    }
    if folder.Uncreatable? {
      return None;
    }
    var files := GetFilesFromFolder(folderPath, folder, allowed);
    var checked := CheckSizes(files);
    result := Some(checked);
  }

  function SumSizes(s: seq<SizedAttachment>): nat {
    if s == [] then 0 else SumSizes(s[..|s| - 1]) + s[|s| - 1].size
  }

  function SumFileSizes(files: seq<FileInfo>): nat {
    if files == [] then 0 else SumFileSizes(files[..|files| - 1]) + files[|files| - 1].size
  }

  /** Every file lands in exactly one of the two lists. */
  lemma {:induction false} EveryFileLandsOnce(files: seq<FileInfo>, n: nat)
    requires n <= |files|
    ensures |AcceptedUpTo(files, n)| + |RejectedUpTo(files, n)| == n
  {
    if n > 0 { EveryFileLandsOnce(files, n - 1); }
  }

  /** The reported total is the sum of the accepted sizes and stays within 20 MiB;
      so the "total exceeds limit" guard of `sendEmailWithFolderAttachments` can never
      fire for folder attachments. */
  lemma {:induction false} TotalIsAcceptedSum(files: seq<FileInfo>, n: nat)
    requires n <= |files|
    ensures TotalBefore(files, n) == SumSizes(AcceptedUpTo(files, n))
    ensures TotalBefore(files, n) <= MaxEmailSize
  {
    if n > 0 {
      TotalIsAcceptedSum(files, n - 1);
      var a := AcceptedUpTo(files, n);
      if VerdictAt(files, n - 1) == Accept {
        assert a == AcceptedUpTo(files, n - 1) + [Sized(files[n - 1])];
        assert a[..|a| - 1] == AcceptedUpTo(files, n - 1);
        assert SumSizes(a) == SumSizes(AcceptedUpTo(files, n - 1)) + files[n - 1].size;
      } else {
        assert a == AcceptedUpTo(files, n - 1);
      }
    }
  }

  /** Accepted files are within the per-file limit; every rejection says which limit
      it broke, the per-file limit taking precedence. */
  lemma {:induction false} LimitsRespected(files: seq<FileInfo>, n: nat)
    requires n <= |files|
    ensures forall a :: a in AcceptedUpTo(files, n) ==> a.size <= MaxAttachmentSize
    ensures forall r :: r in RejectedUpTo(files, n) ==>
              (r.reason == ExceedsFileLimit <==> r.size > MaxAttachmentSize)
  {
    if n > 0 { LimitsRespected(files, n - 1); }
  }

  /** Acceptance is greedy, not all-or-nothing: a file refused because it would pass
      the total does not stop a later, smaller file. With 12 MiB, 12 MiB and 5 MiB
      files, the second is refused and the third accepted. */
  lemma GreedyExample(a: FileInfo, b: FileInfo, c: FileInfo)
    requires a.size == 12 * 1024 * 1024 && b.size == 12 * 1024 * 1024 && c.size == 5 * 1024 * 1024
    ensures var files := [a, b, c];
            && AcceptedUpTo(files, 3) == [Sized(a), Sized(c)]
            && RejectedUpTo(files, 3) == [Rejection(b, OverTotal)]
            && Rejection(b, OverTotal).reason.Text() == "Would exceed total email size limit"
  {
    var files := [a, b, c];
    assert VerdictAt(files, 0) == Accept;
    assert AcceptedUpTo(files, 1) == [Sized(a)] && RejectedUpTo(files, 1) == [];
    assert TotalBefore(files, 1) == a.size;
    assert VerdictAt(files, 1) == OverTotal;
    assert AcceptedUpTo(files, 2) == [Sized(a)] && RejectedUpTo(files, 2) == [Rejection(b, OverTotal)];
    assert TotalBefore(files, 2) == a.size;
    assert VerdictAt(files, 2) == Accept;
  }

  /** When the folder's whole size fits in one message, every file within the
      per-file limit is accepted (the greedy pass never has to refuse for the total). */
  lemma {:induction false} FittingFolderAcceptsAllSmallFiles(files: seq<FileInfo>, i: nat)
    requires SumFileSizes(files) <= MaxEmailSize
    requires i < |files| && files[i].size <= MaxAttachmentSize
    ensures VerdictAt(files, i) == Accept
  {
    TotalBeforeAtMostPrefixSum(files, i);
    PrefixSumBound(files, i + 1);
    assert files[..i + 1][..i] == files[..i];
  }

  lemma {:induction false} TotalBeforeAtMostPrefixSum(files: seq<FileInfo>, i: nat)
    requires i <= |files|
    ensures TotalBefore(files, i) <= SumFileSizes(files[..i])
  {
    if i > 0 {
      TotalBeforeAtMostPrefixSum(files, i - 1);
      assert files[..i][..i - 1] == files[..i - 1];
    }
  }

  lemma {:induction false} PrefixSumBound(files: seq<FileInfo>, k: nat)
    requires k <= |files|
    ensures SumFileSizes(files[..k]) <= SumFileSizes(files)
    decreases |files| - k
  {
    if k < |files| {
      PrefixSumBound(files, k + 1);
      assert files[..k + 1][..k] == files[..k];
    } else {
      assert files[..k] == files;
    }
  }

  // ---------------------------------------------------------------------------
  // Additional attachments

  /** A caller-supplied attachment with what `statSync(path).size` gives (`None`
      when `statSync` throws). */
  datatype Additional = Additional(attachment: Attachment, statSize: Option<nat>)

  /** Whether additional attachment `i` is kept: one whose size cannot be read is
      always kept; a readable one must pass the same two limits. */
  predicate AdditionalKept(adds: seq<Additional>, start: nat, i: nat)
    requires i < |adds|
    decreases i, 1
  {
    adds[i].statSize.None? || Admit(adds[i].statSize.value, RunningTotal(adds, start, i)) == Accept
  }

  /** The running total after the first `i` additional attachments: only readable,
      kept ones add their size. */
  function RunningTotal(adds: seq<Additional>, start: nat, i: nat): nat
    requires i <= |adds|
    decreases i, 0
  {
    if i == 0 then start
    else
      RunningTotal(adds, start, i - 1)
        + (if adds[i - 1].statSize.Some? && AdditionalKept(adds, start, i - 1) then adds[i - 1].statSize.value else 0)
  }

  function KeptUpTo(adds: seq<Additional>, start: nat, n: nat): seq<Attachment>
    requires n <= |adds|
  {
    if n == 0 then []
    else KeptUpTo(adds, start, n - 1) + (if AdditionalKept(adds, start, n - 1) then [adds[n - 1].attachment] else [])
  }

  /** The additional-attachments loop, starting from the folder's total. */
  method AddAdditionalAttachments(adds: seq<Additional>, start: nat) returns (kept: seq<Attachment>, total: nat)
    ensures kept == KeptUpTo(adds, start, |adds|)
    ensures total == RunningTotal(adds, start, |adds|)
  {
    kept := [];
    total := start;
    var i := 0;
    while i < |adds|
      invariant 0 <= i <= |adds|
      invariant total == RunningTotal(adds, start, i)
      invariant kept == KeptUpTo(adds, start, i)
    {
      var a := adds[i];
      if a.statSize.None? {
        kept := kept + [a.attachment];
      } else {
        var size := a.statSize.value;
        if size > MaxAttachmentSize {
        } else if total + size > MaxEmailSize {
        } else {
          kept := kept + [a.attachment];
          total := total + size;
        }
      }
      i := i + 1;
    }
  }

  /** Starting within the message limit, the running total never leaves it; an
      attachment whose size cannot be read is still kept and adds nothing; a readable
      one is kept exactly when it passes both limits. */
  lemma {:induction false} AdditionalBudget(adds: seq<Additional>, start: nat, n: nat)
    requires start <= MaxEmailSize && n <= |adds|
    ensures RunningTotal(adds, start, n) <= MaxEmailSize
    ensures RunningTotal(adds, start, n) >= start
    ensures forall i :: 0 <= i < n && adds[i].statSize.None? ==>
              AdditionalKept(adds, start, i) && RunningTotal(adds, start, i + 1) == RunningTotal(adds, start, i)
    ensures forall i :: 0 <= i < n && adds[i].statSize.Some? && AdditionalKept(adds, start, i) ==>
              adds[i].statSize.value <= MaxAttachmentSize
  {
    if n > 0 { AdditionalBudget(adds, start, n - 1); }
  }

  // ---------------------------------------------------------------------------
  // sendEmailWithFolderAttachments

  /** What `transporter.sendMail` answers. */
  datatype TransportReply = Delivered(messageId: string, response: string) | Refused(message: string)

  datatype SendError =
    | SmtpConnectionFailed
    | FolderCreationFailed(message: string)
    | TotalTooLarge(totalSize: int, oversizedCount: int)
    | TransportFailed(message: string)

  datatype SendReport =
    | Sent(messageId: string, attachmentsCount: nat, totalSize: nat,
           oversizedFiles: seq<OversizedFile>, attachmentNames: seq<string>, response: string)
    | Failed(error: SendError)

  function SizedName(a: SizedAttachment): string { a.filename }
  function AttachmentName(a: Attachment): string { a.filename }

  /** `attachments.map(att => att.filename)`. */
  function Filenames<T>(s: seq<T>, filename: T -> string): (r: seq<string>)
    ensures |r| == |s| && forall i :: 0 <= i < |s| ==> r[i] == filename(s[i])
  {
    if s == [] then [] else [filename(s[0])] + Filenames(s[1..], filename)
  }

  /** `sendEmailWithFolderAttachments(options)` with the connection check
      (`connected`) and `sendMail` (`reply`) as inputs. `attachmentFolder` is `None`
      when the option is absent or empty; `additional` is `options.attachments`. */
  method SendEmailWithFolderAttachments(
    connected: bool, attachmentFolder: Option<string>, folder: Folder, allowed: seq<string>,
    additional: seq<Additional>, reply: TransportReply)
    returns (report: SendReport)
    ensures !connected ==> report == Failed(SmtpConnectionFailed)
    ensures !report.Failed? || !report.error.TotalTooLarge?
    ensures connected && attachmentFolder.Some? && attachmentFolder.value != [] && folder.Uncreatable? ==>
              report == Failed(FolderCreationFailed(folder.error))
    ensures connected && reply.Refused? && !(attachmentFolder.Some? && attachmentFolder.value != [] && folder.Uncreatable?) ==>
              report == Failed(TransportFailed(reply.message))
    ensures connected && reply.Delivered? && !(attachmentFolder.Some? && attachmentFolder.value != [] && folder.Uncreatable?) ==>
              var files := if attachmentFolder.Some? then Listing(attachmentFolder.value, folder, allowed) else [];
              var folderTotal := TotalBefore(files, |files|);
              var kept := KeptUpTo(additional, folderTotal, |additional|);
              && report.Sent?
              && report.messageId == reply.messageId
              && report.response == reply.response
              && report.attachmentNames == Filenames(AcceptedUpTo(files, |files|), SizedName) + Filenames(kept, AttachmentName)
              && report.attachmentsCount == |report.attachmentNames|
              && report.totalSize == RunningTotal(additional, folderTotal, |additional|)
              && report.totalSize <= MaxEmailSize
              && report.oversizedFiles == RejectedUpTo(files, |files|)
  {
    if !connected {
      return Failed(SmtpConnectionFailed);
    }
    var checked := SizeCheck([], 0, []);
    if attachmentFolder.Some? {
      var found := GetAttachmentsWithSizeCheck(attachmentFolder.value, folder, allowed);
      if found.None? {
        return Failed(FolderCreationFailed(folder.error));
      }
      checked := found.value;
    }
    ghost var files := if attachmentFolder.Some? then Listing(attachmentFolder.value, folder, allowed) else [];
    TotalIsAcceptedSum(files, |files|);
    if checked.totalSize > MaxEmailSize {
      return Failed(TotalTooLarge(checked.totalSize, |checked.oversizedFiles|));
    }
    var kept, total := AddAdditionalAttachments(additional, checked.totalSize);
    AdditionalBudget(additional, checked.totalSize, |additional|);
    var names := Filenames(checked.attachments, SizedName) + Filenames(kept, AttachmentName);
    match reply
    case Refused(message) =>
      report := Failed(TransportFailed(message));
    case Delivered(messageId, response) =>
      report := Sent(messageId, |names|, total, checked.oversizedFiles, names, response);
  }
}
