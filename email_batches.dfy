/** `createBatches` and the part numbering of `sendInBatches` in `emailService.js`:
    files are sorted largest first and packed greedily into batches under a byte
    limit; batch `i` of `n` is mailed with the subject "<subject> (Part i of n)". */
module EmailBatches {
  import opened Wrappers
  import opened Text
  import opened FileUtils
  import opened EmailSizeCheck

  predicate SortedBySizeDesc(s: seq<FileInfo>) {
    forall i, j :: 0 <= i < j < |s| ==> s[i].size >= s[j].size
  }

  /** `f` placed in front of the first element that is not larger than it. */
  function Insert(f: FileInfo, s: seq<FileInfo>): (r: seq<FileInfo>)
    ensures |r| == |s| + 1
    ensures r[0] == f || (s != [] && r[0] == s[0])
  {
    if s == [] || s[0].size <= f.size then [f] + s
    else [s[0]] + Insert(f, s[1..])
  }

  lemma {:induction false} InsertSorted(f: FileInfo, s: seq<FileInfo>)
    requires SortedBySizeDesc(s)
    ensures SortedBySizeDesc(Insert(f, s))
  {
    if s != [] && s[0].size > f.size {
      var t := Insert(f, s[1..]);
      InsertSorted(f, s[1..]);
      assert t[0].size <= s[0].size;
      assert Insert(f, s) == [s[0]] + t;
    }
  }

  lemma {:induction false} InsertMultiset(f: FileInfo, s: seq<FileInfo>)
    ensures multiset(Insert(f, s)) == multiset(s) + multiset{f}
  {
    if s != [] && s[0].size > f.size {
      InsertMultiset(f, s[1..]);
      assert s == [s[0]] + s[1..];
    }
  }

  /** `[...files].sort((a, b) => b.size - a.size)`: Array.prototype.sort is stable,
      so the result is the unique size-descending arrangement that keeps files of
      equal size in their input order. */
  function SortBySize(files: seq<FileInfo>): (r: seq<FileInfo>)
    ensures SortedBySizeDesc(r)
    ensures multiset(r) == multiset(files)
    ensures |r| == |files|
  {
    if files == [] then []
    else
      assert files == [files[0]] + files[1..];
      var rest := SortBySize(files[1..]);
      InsertSorted(files[0], rest);
      InsertMultiset(files[0], rest);
      Insert(files[0], rest)
  }

  /** The files of size `k`, in order. */
  function OfSize(s: seq<FileInfo>, k: nat): seq<FileInfo> {
    if s == [] then [] else (if s[0].size == k then [s[0]] else []) + OfSize(s[1..], k)
  }

  lemma {:induction false} InsertOfSize(f: FileInfo, s: seq<FileInfo>, k: nat)
    ensures OfSize(Insert(f, s), k) == (if f.size == k then [f] else []) + OfSize(s, k)
  {
    if s == [] || s[0].size <= f.size {
      assert Insert(f, s)[1..] == s;
    } else {
      var t := Insert(f, s[1..]);
      InsertOfSize(f, s[1..], k);
      assert Insert(f, s) == [s[0]] + t;
      assert ([s[0]] + t)[1..] == t;
      var hs := if s[0].size == k then [s[0]] else [];
      var hf := if f.size == k then [f] else [];
      assert hs == [] || hf == [];
      assert OfSize(s, k) == hs + OfSize(s[1..], k);
      assert OfSize([s[0]] + t, k) == hs + (hf + OfSize(s[1..], k));
    }
  }

  /** The sort is stable: for every size, the files of that size keep their order. */
  lemma {:induction false} SortIsStable(files: seq<FileInfo>, k: nat)
    ensures OfSize(SortBySize(files), k) == OfSize(files, k)
  {
    if files != [] {
      SortIsStable(files[1..], k);
      InsertOfSize(files[0], SortBySize(files[1..]), k);
    }
  }

  function Flatten(batches: seq<seq<FileInfo>>): seq<FileInfo> {
    if batches == [] then [] else Flatten(batches[..|batches| - 1]) + batches[|batches| - 1]
  }

  /** The shape `createBatches` promises: no batch is empty; a batch of two or
      more files fits the limit; and each batch was closed only because its
      successor's first file would have pushed it over the limit. */
  predicate IsGreedyBatching(batches: seq<seq<FileInfo>>, limit: int) {
    && (forall i :: 0 <= i < |batches| ==> batches[i] != [])
    && (forall i :: 0 <= i < |batches| && |batches[i]| >= 2 ==> SumFileSizes(batches[i]) <= limit)
    && (forall i :: 0 <= i < |batches| - 1 ==> SumFileSizes(batches[i]) + batches[i + 1][0].size > limit)
  }

  lemma SumAppendOne(s: seq<FileInfo>, f: FileInfo)
    ensures SumFileSizes(s + [f]) == SumFileSizes(s) + f.size
  {
    assert (s + [f])[..|s|] == s;
  }

  lemma FlattenPush(batches: seq<seq<FileInfo>>, b: seq<FileInfo>)
    ensures Flatten(batches + [b]) == Flatten(batches) + b
  {
    assert (batches + [b])[..|batches|] == batches;
  }

  /** Closing a batch that respects the limit and justifies the previous close
      keeps the batching greedy. */
  lemma GreedyPush(batches: seq<seq<FileInfo>>, b: seq<FileInfo>, limit: int)
    requires IsGreedyBatching(batches, limit)
    requires b != [] && (|b| >= 2 ==> SumFileSizes(b) <= limit)
    requires batches != [] ==> SumFileSizes(batches[|batches| - 1]) + b[0].size > limit
    ensures IsGreedyBatching(batches + [b], limit)
  {
    var n := batches + [b];
    forall i | 0 <= i < |n| - 1
      ensures SumFileSizes(n[i]) + n[i + 1][0].size > limit
    {
      if i + 1 < |batches| { assert n[i] == batches[i] && n[i + 1] == batches[i + 1]; }
    }
  }

  /** `createBatches(files, batchSizeLimit)`. */
  method CreateBatches(files: seq<FileInfo>, limit: int) returns (batches: seq<seq<FileInfo>>)
    ensures Flatten(batches) == SortBySize(files)
    ensures multiset(Flatten(batches)) == multiset(files)
    ensures IsGreedyBatching(batches, limit)
    ensures batches == [] <==> files == []
  {
    batches := Pack(SortBySize(files), limit);
  }

  /** The loop state of `createBatches` after the first `i` sorted files: the
      closed batches followed by the open one spell out that prefix. */
  predicate PackState(sorted: seq<FileInfo>, i: nat, batches: seq<seq<FileInfo>>, current: seq<FileInfo>,
                      currentSize: int, limit: int) {
    && i <= |sorted|
    && Flatten(batches) + current == sorted[..i]
    && IsGreedyBatching(batches, limit)
    && OpenBatch(i, batches, current, currentSize, limit)
  }

  /** The open batch: empty only before the first file, within the limit once it
      holds two files, and started only because the last closed batch was full. */
  predicate OpenBatch(i: nat, batches: seq<seq<FileInfo>>, current: seq<FileInfo>, currentSize: int, limit: int) {
    && (current == [] <==> i == 0)
    && (batches != [] ==> current != [])
    && currentSize == SumFileSizes(current)
    && (|current| >= 2 ==> currentSize <= limit)
    && (batches != [] ==> SumFileSizes(batches[|batches| - 1]) + current[0].size > limit)
  }

  /** The next file does not fit: the open batch is closed and the file opens a new one. */
  lemma CloseStep(sorted: seq<FileInfo>, i: nat, batches: seq<seq<FileInfo>>, current: seq<FileInfo>,
                  currentSize: int, limit: int)
    requires PackState(sorted, i, batches, current, currentSize, limit) && i < |sorted|
    requires currentSize + sorted[i].size > limit && |current| > 0
    ensures PackState(sorted, i + 1, batches + [current], [sorted[i]], sorted[i].size, limit)
  {
    assert sorted[..i + 1] == sorted[..i] + [sorted[i]];
    FlattenPush(batches, current);
    GreedyPush(batches, current, limit);
    SumAppendOne([], sorted[i]);
    assert [] + [sorted[i]] == [sorted[i]];
  }

  /** The next file fits, or the open batch is still empty: the file joins it. */
  lemma GrowStep(sorted: seq<FileInfo>, i: nat, batches: seq<seq<FileInfo>>, current: seq<FileInfo>,
                 currentSize: int, limit: int)
    requires PackState(sorted, i, batches, current, currentSize, limit) && i < |sorted|
    requires !(currentSize + sorted[i].size > limit && |current| > 0)
    ensures PackState(sorted, i + 1, batches, current + [sorted[i]], currentSize + sorted[i].size, limit)
  {
    assert sorted[..i + 1] == sorted[..i] + [sorted[i]];
    SumAppendOne(current, sorted[i]);
    assert current != [] ==> (current + [sorted[i]])[0] == current[0];
  }

  /** One round of the `forEach` of `createBatches`: file `i` either opens a new
      batch, closing the open one, or joins the open one. */
  method PackStep(sorted: seq<FileInfo>, i: nat, batches: seq<seq<FileInfo>>, current: seq<FileInfo>,
                  currentSize: int, limit: int)
    returns (batches': seq<seq<FileInfo>>, current': seq<FileInfo>, currentSize': int)
    requires PackState(sorted, i, batches, current, currentSize, limit) && i < |sorted|
    ensures PackState(sorted, i + 1, batches', current', currentSize', limit)
    ensures if currentSize + sorted[i].size > limit && |current| > 0
            then batches' == batches + [current] && current' == [sorted[i]] && currentSize' == sorted[i].size
            else batches' == batches && current' == current + [sorted[i]] && currentSize' == currentSize + sorted[i].size
  {
    var file := sorted[i];
    if currentSize + file.size > limit && |current| > 0 {
      CloseStep(sorted, i, batches, current, currentSize, limit);
      batches', current', currentSize' := batches + [current], [file], file.size;
    } else {
      GrowStep(sorted, i, batches, current, currentSize, limit);
      batches', current', currentSize' := batches, current + [file], currentSize + file.size;
    }
  }

  /** The `forEach` of `createBatches` over the already sorted files. */
  method Pack(sorted: seq<FileInfo>, limit: int) returns (batches: seq<seq<FileInfo>>)
    ensures Flatten(batches) == sorted
    ensures IsGreedyBatching(batches, limit)
    ensures batches == [] <==> sorted == []
  {
    batches := [];
    var current: seq<FileInfo> := [];
    var currentSize := 0;
    var i := 0;
    while i < |sorted|
      invariant PackState(sorted, i, batches, current, currentSize, limit)
    {
      batches, current, currentSize := PackStep(sorted, i, batches, current, currentSize, limit);
      i := i + 1;
    }
    batches := Finish(sorted, batches, current, currentSize, limit);
  }

  /** After the `forEach`: the open batch, if any, is closed. */
  method Finish(sorted: seq<FileInfo>, batches: seq<seq<FileInfo>>, current: seq<FileInfo>,
                currentSize: int, limit: int) returns (done: seq<seq<FileInfo>>)
    requires PackState(sorted, |sorted|, batches, current, currentSize, limit)
    ensures done == if |current| > 0 then batches + [current] else batches
    ensures Flatten(done) == sorted
    ensures IsGreedyBatching(done, limit)
    ensures done == [] <==> sorted == []
  {
    assert sorted[..|sorted|] == sorted;
    done := batches;
    if |current| > 0 {
      FlattenPush(batches, current);
      GreedyPush(batches, current, limit);
      done := batches + [current];
    }
  }

  lemma {:induction false} SizeAtMostSum(b: seq<FileInfo>, k: nat)
    requires k < |b|
    ensures b[k].size <= SumFileSizes(b)
  {
    if k < |b| - 1 { SizeAtMostSum(b[..|b| - 1], k); }
  }

  /** A file larger than the limit always sits alone in its batch. */
  lemma LargeFileAlone(batches: seq<seq<FileInfo>>, limit: int, i: nat, k: nat)
    requires IsGreedyBatching(batches, limit)
    requires i < |batches| && k < |batches[i]| && batches[i][k].size > limit
    ensures batches[i] == [batches[i][k]]
  {
    SizeAtMostSum(batches[i], k);
  }

  /** `${subject} (Part ${part} of ${count})`. */
  function PartSubject(subject: string, part: nat, count: nat): string {
    subject + " (Part " + NatToString(part) + " of " + NatToString(count) + ")"
  }

  lemma Middle(pre: string, x: string, post: string)
    ensures (pre + x + post)[|pre|..|pre| + |x|] == x
  {
  }

  /** Distinct parts of one mailing get distinct subjects. */
  lemma PartSubjectsDistinct(subject: string, i: nat, j: nat, count: nat)
    requires PartSubject(subject, i, count) == PartSubject(subject, j, count)
    ensures i == j
  {
    var pre := subject + " (Part ";
    var post := " of " + NatToString(count) + ")";
    var si, sj := NatToString(i), NatToString(j);
    assert PartSubject(subject, i, count) == pre + si + post;
    assert PartSubject(subject, j, count) == pre + sj + post;
    Middle(pre, si, post);
    Middle(pre, sj, post);
    NatToStringInjective(i, j);
  }

  /** One message of `sendInBatches`, before it reaches the transport. */
  datatype BatchEmail = BatchEmail(subject: string, part: nat, count: nat, attachments: seq<Attachment>,
                                   fileCount: nat, batchSize: nat)

  /** The message `sendInBatches` prepares for batch `i` of `batches`. */
  predicate IsPartEmail(e: BatchEmail, subject: string, batches: seq<seq<FileInfo>>, i: nat)
    requires i < |batches|
  {
    && e.subject == PartSubject(subject, i + 1, |batches|)
    && e.part == i + 1 && e.count == |batches|
    && e.attachments == FilesToAttachments(batches[i])
    && e.fileCount == |batches[i]|
    && e.batchSize == SumFileSizes(batches[i])
  }

  /** The loop of `sendInBatches`: one message per batch, numbered from 1. */
  method PrepareParts(subject: string, batches: seq<seq<FileInfo>>) returns (emails: seq<BatchEmail>)
    ensures |emails| == |batches|
    ensures forall i :: 0 <= i < |emails| ==> IsPartEmail(emails[i], subject, batches, i)
  {
    emails := [];
    var i := 0;
    while i < |batches|
      invariant 0 <= i <= |batches|
      invariant |emails| == i
      invariant forall k :: 0 <= k < i ==> IsPartEmail(emails[k], subject, batches, k)
    {
      var batch := batches[i];
      var batchSize := SumFileSizes(batch);
      emails := emails + [BatchEmail(PartSubject(subject, i + 1, |batches|), i + 1, |batches|,
                                     FilesToAttachments(batch), |batch|, batchSize)];
      i := i + 1;
    }
  }

  /** The `batchSizeMB` of `sendInBatches` when the caller leaves it out. */
  const DefaultBatchSizeMB: int := 15

  /** `sendInBatches(to, subject, folderPath, batchSizeMB)` up to the sends: the
      folder is listed without an extension filter, batched, and a message prepared
      for each batch, in order. `None` stands for the omitted `batchSizeMB`. */
  method SendInBatches(subject: string, folderPath: string, folder: Folder, batchSizeMB: Option<int>)
    returns (batches: seq<seq<FileInfo>>, emails: seq<BatchEmail>)
    ensures var files := Listing(folderPath, folder, []);
            && Flatten(batches) == SortBySize(files)
            && multiset(Flatten(batches)) == multiset(files)
            && (batches == [] <==> files == [])
    ensures IsGreedyBatching(batches, batchSizeMB.GetOr(DefaultBatchSizeMB) * 1024 * 1024)
    ensures batchSizeMB.None? ==> IsGreedyBatching(batches, 15 * 1024 * 1024)
    ensures |emails| == |batches|
    ensures forall i :: 0 <= i < |emails| ==> IsPartEmail(emails[i], subject, batches, i)
  {
    var files := GetFilesFromFolder(folderPath, folder, []);
    batches := CreateBatches(files, batchSizeMB.GetOr(DefaultBatchSizeMB) * 1024 * 1024);
    emails := PrepareParts(subject, batches);
  }
}
